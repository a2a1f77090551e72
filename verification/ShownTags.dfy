// When an item of a media page comes back without a tag it was selected by. listInTx
// (internal/adapter/postgres/media_repo.go) reads the page and then the tags; other transactions
// may commit in between.
module ShownTags {
  import opened Common
  import opened Ordering
  import opened Keyset
  import opened Cursor
  import opened Sanitize
  import opened Catalog
  import opened TenantStore
  import opened TenantIsolation
  import opened Traces
  import opened MediaService
  import opened Walks

  // A tag a request asks for, by id or by sanitized name.
  datatype Want = ById(id: Uuid) | ByName(name: string)

  predicate Requested(q: Query, want: Want) {
    match want
    case ById(id) => id in q.filter.tagIds
    case ByName(name) =>
      && |q.filter.tagIds| == 0
      && exists i :: 0 <= i < |q.filter.tagNames| && Sanitized(q.nfc, q.filter.tagNames[i]) == Ok(name)
  }

  predicate Fits(st: Store, want: Want, id: Uuid) {
    id in st.tags && match want case ById(wanted) => id == wanted case ByName(name) => st.tags[id].name == name
  }

  // The item is linked to a tag that fits.
  predicate Linked(st: Store, m: Uuid, want: Want, id: Uuid) {
    Fits(st, want, id) && Link(m, id) in st.links
  }

  ghost predicate Has(st: Store, m: Uuid, want: Want) {
    exists id :: Linked(st, m, want, id)
  }

  // The item as it came back shows such a tag.
  predicate Shows(item: Media, want: Want) {
    exists i :: 0 <= i < |item.tags| &&
                match want case ById(id) => item.tags[i].id == id case ByName(name) => item.tags[i].name == name
  }

  // ---- What is shown is what is linked at the second read ----

  lemma AttachedAre(st: Store, coll: Collation, m: Uuid, tag: Tag)
    requires StrictTotalOrder(coll)
    ensures tag in Attached(st, coll, m) <==>
            && tag.id in st.tags && Link(m, tag.id) in st.links
            && tag == Tag(tag.id, st.tags[tag.id].name, st.tags[tag.id].createdAt)
  {
    TagOrderIsTotal(coll);
    var keys := Sort(AttachedKeys(st, m), TagOrder(coll));
    assert forall k :: k in keys <==> k in Elements(keys);
    var tags := Attached(st, coll, m);
    if tag in tags {
      var i :| 0 <= i < |tags| && tags[i] == tag;
      assert keys[i] in keys;
    }
    if tag.id in st.tags && Link(m, tag.id) in st.links
       && tag == Tag(tag.id, st.tags[tag.id].name, st.tags[tag.id].createdAt) {
      var k := TagKey(tag.name, tag.id);
      assert k in AttachedKeys(st, m) && k in keys;
      var i :| 0 <= i < |keys| && keys[i] == k;
      assert tags[i] == tag;
    }
  }

  lemma ShowsIffHas(st: Store, coll: Collation, item: Media, want: Want)
    requires StrictTotalOrder(coll) && item.tags == Attached(st, coll, item.id)
    ensures Shows(item, want) <==> Has(st, item.id, want)
  {
    if Shows(item, want) {
      var i :| 0 <= i < |item.tags| &&
               match want case ById(id) => item.tags[i].id == id case ByName(name) => item.tags[i].name == name;
      AttachedAre(st, coll, item.id, item.tags[i]);
      assert Linked(st, item.id, want, item.tags[i].id);
    }
    if Has(st, item.id, want) {
      var id :| Linked(st, item.id, want, id);
      var tag := Tag(id, st.tags[id].name, st.tags[id].createdAt);
      AttachedAre(st, coll, item.id, tag);
      var i :| 0 <= i < |item.tags| && item.tags[i] == tag;
    }
  }

  // A wanted item has every requested tag when its page is read.
  lemma WantedHas(st: Store, q: Query, m: Uuid, want: Want)
    requires Wanted(st, q.nfc, q.filter, m) && Requested(q, want)
    requires forall l :: l in st.links ==> l.media in st.media && l.tag in st.tags
    ensures Has(st, m, want)
  {
    match want
    case ById(id) => assert Linked(st, m, want, id);
    case ByName(name) =>
      var i :| 0 <= i < |q.filter.tagNames| && Sanitized(q.nfc, q.filter.tagNames[i]) == Ok(name);
      var id :| id in st.tags && Ok(st.tags[id].name) == Sanitized(q.nfc, q.filter.tagNames[i])
                && Link(m, id) in st.links;
      assert Linked(st, m, want, id);
  }

  // ---- What one operation does to a tag's attachment ----

  predicate NameFree(st: Store, name: string, except: Uuid) {
    forall id :: id in st.tags && id != except ==> st.tags[id].name != name
  }

  // The tag goes, its link goes, the item goes, or the tag is renamed away from the requested name.
  ghost predicate Removes(st: Store, op: Op, m: Uuid, want: Want) {
    match op
    case DeleteTag(id) => Linked(st, m, want, id)
    case DetachTag(media, id) => media == m && Linked(st, m, want, id)
    case DeleteMedia(media) => media == m && Has(st, m, want)
    case RenameTag(id, name) =>
      want.ByName? && name != want.name && Linked(st, m, want, id) && NameFree(st, name, id)
    case _ => false
  }

  // A fitting tag is attached, a linked tag is renamed to the requested name, or the item is created
  // anew with the tag.
  ghost predicate Restores(st: Store, op: Op, m: Uuid, want: Want) {
    match op
    case AttachTags(media, ids) =>
      && media == m && m in st.media && NoDuplicates(ids) && (forall id :: id in ids ==> id in st.tags)
      && exists id :: id in ids && Fits(st, want, id)
    case CreateMedia(_, ids, media, _) =>
      media == m && !RepeatsKnown(st.tags.Keys, ids) && exists id :: id in ids && Fits(st, want, id)
    case RenameTag(id, name) =>
      want == ByName(name) && id in st.tags && Link(m, id) in st.links && NameFree(st, name, id)
    case _ => false
  }

  ghost predicate StoreOk(st: Store) {
    && (forall l :: l in st.links ==> l.media in st.media && l.tag in st.tags)
    && (forall a, b :: a in st.tags && b in st.tags && a != b ==> st.tags[a].name != st.tags[b].name)
  }

  lemma ProjectionsAreOk(db: Tables, t: Uuid)
    requires Inv(db)
    ensures StoreOk(Project(db, t))
  {
  }

  ghost predicate Fresh(st: Store, op: Op) {
    match op
    case CreateOrGet(_, id, _) => id !in st.tags
    case CreateMedia(_, _, id, _) => id !in st.media
    case ListTags(limit, _) => limit > 0
    case ListMedia(limit, _, _) => limit > 0
    case _ => true
  }

  lemma NameFreeIff(st: Store, name: string, except: Uuid)
    ensures NameFree(st, name, except) <==> TagsNamed(st, name) - {except} == {}
  {
    if !NameFree(st, name, except) {
      var id :| id in st.tags && id != except && st.tags[id].name == name;
      assert id in TagsNamed(st, name) - {except};
    }
    if id :| id in TagsNamed(st, name) - {except} {
      assert id in st.tags && st.tags[id].name == name;
    }
  }

  // A rename changes the fit of one tag only, and the name it takes was nobody else's.
  lemma RenameStep(st: Store, coll: Collation, tag: Uuid, name: string, m: Uuid, want: Want)
    requires StrictTotalOrder(coll) && StoreOk(st)
    ensures var op := RenameTag(tag, name);
            !Has(Run(st, coll, op).0, m, want) <==>
            Removes(st, op, m, want) || (!Has(st, m, want) && !Restores(st, op, m, want))
  {
    var op := RenameTag(tag, name);
    var st' := Run(st, coll, op).0;
    NameFreeIff(st, name, tag);
    if tag in st.tags && NameFree(st, name, tag) {
      assert forall id :: id != tag ==> (Linked(st', m, want, id) <==> Linked(st, m, want, id));
      assert Linked(st', m, want, tag) <==>
             Link(m, tag) in st.links && match want case ById(id) => id == tag case ByName(n) => n == name;
      if Has(st, m, want) {
        var id :| Linked(st, m, want, id);
        assert forall other :: Linked(st, m, want, other) ==> other == id;
        assert id != tag ==> Linked(st', m, want, id);
      }
      if Has(st', m, want) && !Has(st, m, want) {
        var id :| Linked(st', m, want, id);
        assert id == tag && (want.ById? ==> Linked(st, m, want, tag));
      }
      if Restores(st, op, m, want) {
        assert Linked(st', m, want, tag);
      }
    } else {
      assert st' == st;
    }
  }

  lemma DropStep(st: Store, coll: Collation, op: Op, m: Uuid, want: Want)
    requires StrictTotalOrder(coll) && StoreOk(st) && (op.DeleteTag? || op.DetachTag? || op.DeleteMedia?)
    ensures !Has(Run(st, coll, op).0, m, want) <==> Removes(st, op, m, want) || !Has(st, m, want)
  {
    var st' := Run(st, coll, op).0;
    if Has(st, m, want) {
      var id :| Linked(st, m, want, id);
      assert forall other :: Linked(st, m, want, other) ==> other == id;
      assert !Removes(st, op, m, want) ==> Linked(st', m, want, id);
    }
    assert forall id :: Linked(st', m, want, id) ==> Linked(st, m, want, id);
  }

  lemma AddStep(st: Store, coll: Collation, op: Op, m: Uuid, want: Want)
    requires StrictTotalOrder(coll) && StoreOk(st) && Fresh(st, op)
             && (op.AttachTags? || op.CreateMedia? || op.CreateOrGet?)
    ensures Has(Run(st, coll, op).0, m, want) <==> Has(st, m, want) || Restores(st, op, m, want)
  {
    var st' := Run(st, coll, op).0;
    if Has(st, m, want) {
      var id :| Linked(st, m, want, id);
      assert Linked(st', m, want, id);
    }
    if Restores(st, op, m, want) {
      var id :| id in op.tagIds && Fits(st, want, id);
      assert Link(m, id) in LinksFor(st, m, op.tagIds);
      assert Linked(st', m, want, id);
    }
    if Has(st', m, want) {
      var id :| Linked(st', m, want, id);
      assert Linked(st, m, want, id) || (!op.CreateOrGet? && id in op.tagIds && Fits(st, want, id));
    }
  }

  lemma AttachmentAfterStep(st: Store, coll: Collation, op: Op, m: Uuid, want: Want)
    requires StrictTotalOrder(coll) && StoreOk(st) && Fresh(st, op)
    ensures !Has(Run(st, coll, op).0, m, want)
            <==> Removes(st, op, m, want) || (!Has(st, m, want) && !Restores(st, op, m, want))
  {
    match op
    case RenameTag(tag, name) => RenameStep(st, coll, tag, name, m, want);
    case DeleteTag(_) => DropStep(st, coll, op, m, want);
    case DetachTag(_, _) => DropStep(st, coll, op, m, want);
    case DeleteMedia(_) => DropStep(st, coll, op, m, want);
    case AttachTags(_, _) => AddStep(st, coll, op, m, want);
    case CreateMedia(_, _, _, _) => AddStep(st, coll, op, m, want);
    case CreateOrGet(_, _, _) => AddStep(st, coll, op, m, want);
    case _ =>
  }

  // ---- What the requests between the two reads do to it ----

  // The tables before each request, and after the last.
  ghost function TablesAlong(db: Tables, rls: bool, coll: Collation, reqs: seq<Request>): (dbs: seq<Tables>)
    requires StrictTotalOrder(coll) && IsHistory(db, rls, coll, reqs)
    ensures |dbs| == |reqs| + 1 && dbs[0] == db
    decreases |reqs|
  {
    if |reqs| == 0 then [db]
    else [db] + TablesAlong(Exec(db, Session(reqs[0].tenant, rls), coll, reqs[0].op).0, rls, coll, reqs[1..])
  }

  lemma {:induction false} TablesAt(db: Tables, rls: bool, coll: Collation, reqs: seq<Request>, k: nat)
    requires Inv(db) && StrictTotalOrder(coll) && IsHistory(db, rls, coll, reqs) && k < |reqs|
    ensures var dbs := TablesAlong(db, rls, coll, reqs);
            && Inv(dbs[k]) && Admissible(dbs[k], reqs[k].op)
            && dbs[k + 1] == Exec(dbs[k], Session(reqs[k].tenant, rls), coll, reqs[k].op).0
    decreases k
  {
    if k > 0 {
      ExecSimulates(db, Session(reqs[0].tenant, rls), coll, reqs[0].op);
      TablesAt(Exec(db, Session(reqs[0].tenant, rls), coll, reqs[0].op).0, rls, coll, reqs[1..], k - 1);
    }
  }

  lemma {:induction false} LastTables(db: Tables, rls: bool, coll: Collation, reqs: seq<Request>)
    requires StrictTotalOrder(coll) && IsHistory(db, rls, coll, reqs)
    ensures TablesAlong(db, rls, coll, reqs)[|reqs|] == ExecAll(db, rls, coll, reqs).0
    decreases |reqs|
  {
    if |reqs| > 0 {
      LastTables(Exec(db, Session(reqs[0].tenant, rls), coll, reqs[0].op).0, rls, coll, reqs[1..]);
    }
  }

  ghost function RemovesOf(db: Tables, rls: bool, coll: Collation, reqs: seq<Request>, t: Uuid, m: Uuid,
                           want: Want): seq<bool>
    requires StrictTotalOrder(coll) && IsHistory(db, rls, coll, reqs)
  {
    var dbs := TablesAlong(db, rls, coll, reqs);
    seq(|reqs|, k requires 0 <= k < |reqs| => reqs[k].tenant == t && Removes(Project(dbs[k], t), reqs[k].op, m, want))
  }

  ghost function RestoresOf(db: Tables, rls: bool, coll: Collation, reqs: seq<Request>, t: Uuid, m: Uuid,
                            want: Want): seq<bool>
    requires StrictTotalOrder(coll) && IsHistory(db, rls, coll, reqs)
  {
    var dbs := TablesAlong(db, rls, coll, reqs);
    seq(|reqs|, k requires 0 <= k < |reqs| => reqs[k].tenant == t && Restores(Project(dbs[k], t), reqs[k].op, m, want))
  }

  ghost function HasOf(db: Tables, rls: bool, coll: Collation, reqs: seq<Request>, t: Uuid, m: Uuid,
                       want: Want): seq<bool>
    requires StrictTotalOrder(coll) && IsHistory(db, rls, coll, reqs)
  {
    var dbs := TablesAlong(db, rls, coll, reqs);
    seq(|reqs| + 1, k requires 0 <= k <= |reqs| => Has(Project(dbs[k], t), m, want))
  }

  // Some request of the tenant takes the tag from the item, and no later one of the tenant gives it back.
  ghost predicate Lost(db: Tables, rls: bool, coll: Collation, reqs: seq<Request>, t: Uuid, m: Uuid, want: Want)
    requires StrictTotalOrder(coll) && IsHistory(db, rls, coll, reqs)
  {
    TakenForGood(RemovesOf(db, rls, coll, reqs, t, m, want), RestoresOf(db, rls, coll, reqs, t, m, want))
  }

  lemma AttachmentTracksAt(db: Tables, rls: bool, coll: Collation, reqs: seq<Request>, t: Uuid, m: Uuid,
                           want: Want, k: nat)
    requires Inv(db) && StrictTotalOrder(coll) && IsHistory(db, rls, coll, reqs) && k < |reqs|
    ensures !HasOf(db, rls, coll, reqs, t, m, want)[k + 1] <==>
            || RemovesOf(db, rls, coll, reqs, t, m, want)[k]
            || (!HasOf(db, rls, coll, reqs, t, m, want)[k] && !RestoresOf(db, rls, coll, reqs, t, m, want)[k])
  {
    TablesAt(db, rls, coll, reqs, k);
    var db1 := TablesAlong(db, rls, coll, reqs)[k];
    ExecSimulates(db1, Session(reqs[k].tenant, rls), coll, reqs[k].op);
    if reqs[k].tenant == t {
      ProjectionsAreOk(db1, t);
      AttachmentAfterStep(Project(db1, t), coll, reqs[k].op, m, want);
    }
  }

  lemma AttachmentTracks(db: Tables, rls: bool, coll: Collation, reqs: seq<Request>, t: Uuid, m: Uuid, want: Want)
    requires Inv(db) && StrictTotalOrder(coll) && IsHistory(db, rls, coll, reqs)
    ensures Tracks(HasOf(db, rls, coll, reqs, t, m, want), RemovesOf(db, rls, coll, reqs, t, m, want),
                   RestoresOf(db, rls, coll, reqs, t, m, want))
  {
    forall k | 0 <= k < |reqs| {
      AttachmentTracksAt(db, rls, coll, reqs, t, m, want, k);
    }
  }

  lemma LostIff(db: Tables, rls: bool, coll: Collation, reqs: seq<Request>, t: Uuid, m: Uuid, want: Want)
    requires Inv(db) && StrictTotalOrder(coll) && IsHistory(db, rls, coll, reqs) && Has(Project(db, t), m, want)
    ensures !Has(Project(ExecAll(db, rls, coll, reqs).0, t), m, want) <==> Lost(db, rls, coll, reqs, t, m, want)
  {
    LastTables(db, rls, coll, reqs);
    AttachmentTracks(db, rls, coll, reqs, t, m, want);
    AbsentAtEndIff(HasOf(db, rls, coll, reqs, t, m, want), RemovesOf(db, rls, coll, reqs, t, m, want),
                   RestoresOf(db, rls, coll, reqs, t, m, want));
  }

  // ---- The theorem ----

  // One call of a walk: the tables at its first read, and what happens before its second.
  ghost function VisitOf(db: Tables, rls: bool, coll: Collation, between: seq<Request>, t: Uuid, limit: int): Visit
    requires StrictTotalOrder(coll) && IsHistory(db, rls, coll, between)
  {
    Visit(Project(db, t), Project(ExecAll(db, rls, coll, between).0, t), limit)
  }

  // An item comes back without a requested tag exactly when, between the two reads, a request of its
  // tenant took the tag from it, by deleting, detaching or renaming the tag or deleting the item, and
  // no later one gave it back.
  lemma ShowsRequestedIff(db: Tables, rls: bool, q: Query, between: seq<Request>, t: Uuid, limit: int, item: Media,
                          want: Want)
    requires Inv(db) && QueryOk(q) && IsHistory(db, rls, q.coll, between) && Requested(q, want)
    requires ShownAt(q, VisitOf(db, rls, q.coll, between, t, limit), item)
    ensures !Shows(item, want) <==> Lost(db, rls, q.coll, between, t, item.id, want)
  {
    ProjectionsAreOk(db, t);
    WantedHas(Project(db, t), q, item.id, want);
    LostIff(db, rls, q.coll, between, t, item.id, want);
    ShowsIffHas(Project(ExecAll(db, rls, q.coll, between).0, t), q.coll, item, want);
  }

  // The tables when call i of a walk reads its page.
  ghost function PageTables(db: Tables, rls: bool, coll: Collation, turns: seq<Turn>, i: nat): Tables
    requires StrictTotalOrder(coll) && Possible(db, rls, coll, turns) && i < |turns|
    decreases i
  {
    if i == 0 then ExecAll(db, rls, coll, turns[0].changes).0
    else PageTables(AfterTurn(db, rls, coll, turns), rls, coll, turns[1..], i - 1)
  }

  lemma TurnKeepsInv(db: Tables, rls: bool, coll: Collation, turns: seq<Turn>, t: Uuid)
    requires Inv(db) && StrictTotalOrder(coll) && |turns| > 0 && Possible(db, rls, coll, turns)
    ensures Inv(ExecAll(db, rls, coll, turns[0].changes).0) && Inv(AfterTurn(db, rls, coll, turns))
  {
    EachTenantAlone(db, rls, coll, turns[0].changes, t);
    EachTenantAlone(ExecAll(db, rls, coll, turns[0].changes).0, rls, coll, turns[0].between, t);
  }

  lemma {:induction false} VisitIsOneCall(db: Tables, rls: bool, coll: Collation, turns: seq<Turn>, t: Uuid, i: nat)
    requires Inv(db) && StrictTotalOrder(coll) && Possible(db, rls, coll, turns) && i < |turns|
    ensures var db1 := PageTables(db, rls, coll, turns, i);
            && Inv(db1) && IsHistory(db1, rls, coll, turns[i].between)
            && Visits(db, rls, coll, turns, t)[i] == VisitOf(db1, rls, coll, turns[i].between, t, turns[i].limit)
    decreases i
  {
    TurnKeepsInv(db, rls, coll, turns, t);
    if i > 0 {
      VisitsUnfold(db, rls, coll, turns, t, i);
      VisitIsOneCall(AfterTurn(db, rls, coll, turns), rls, coll, turns[1..], t, i - 1);
    }
  }

  ghost predicate ShowsUnlessLost(db: Tables, rls: bool, q: Query, between: seq<Request>, t: Uuid, item: Media)
    requires QueryOk(q) && IsHistory(db, rls, q.coll, between)
  {
    forall want :: Requested(q, want) ==> (!Shows(item, want) <==> Lost(db, rls, q.coll, between, t, item.id, want))
  }

  // Every item a walk returns comes from some call, and it shows each requested tag unless the tag was
  // lost between that call's two reads.
  lemma MediaWalkShowsIff(db: Tables, rls: bool, turns: seq<Turn>, t: Uuid, q: Query, item: Media) returns (i: nat)
    requires Inv(db) && QueryOk(q) && Possible(db, rls, q.coll, turns)
    requires item in Collected(q, Visits(db, rls, q.coll, turns, t), "").0
    ensures i < |turns| && ShownAt(q, Visits(db, rls, q.coll, turns, t)[i], item)
    ensures IsHistory(PageTables(db, rls, q.coll, turns, i), rls, q.coll, turns[i].between)
    ensures ShowsUnlessLost(PageTables(db, rls, q.coll, turns, i), rls, q, turns[i].between, t, item)
  {
    var visits := Visits(db, rls, q.coll, turns, t);
    MediaWalkIsSound(q, visits, "", item);
    i :| 0 <= i < |visits| && ShownAt(q, visits[i], item);
    VisitIsOneCall(db, rls, q.coll, turns, t, i);
    var db1 := PageTables(db, rls, q.coll, turns, i);
    forall want | Requested(q, want)
      ensures !Shows(item, want) <==> Lost(db1, rls, q.coll, turns[i].between, t, item.id, want)
    {
      ShowsRequestedIff(db1, rls, q, turns[i].between, t, turns[i].limit, item, want);
    }
  }

  // One removal is enough, in any state.
  lemma OneRemovalLoses(db: Tables, rls: bool, q: Query, op: Op, t: Uuid, limit: int, item: Media, want: Want)
    requires Inv(db) && QueryOk(q) && Admissible(db, op) && Requested(q, want)
    requires IsHistory(db, rls, q.coll, [Request(t, op)])
    requires ShownAt(q, VisitOf(db, rls, q.coll, [Request(t, op)], t, limit), item)
    requires Removes(Project(db, t), op, item.id, want)
    ensures !Shows(item, want)
  {
    var between := [Request(t, op)];
    assert TablesAlong(db, rls, q.coll, between)[0] == db;
    assert RemovesOf(db, rls, q.coll, between, t, item.id, want)[0];
    ShowsRequestedIff(db, rls, q, between, t, limit, item, want);
  }

  // ---- It happens ----

  // A tenant with one item, carrying one tag.
  function OneItem(t: Uuid, info: MediaInfo): Tables {
    Tables(map[1 := TagRow(t, "a", 0)], map[2 := MediaRow(t, info, 0)], map[Link(2, 1) := t])
  }

  lemma OneKey<K(!new)>(key: K, limit: nat, lt: (K, K) -> bool)
    requires StrictTotalOrder(lt) && limit > 0
    ensures PageOf({key}, None, limit, lt) == ([key], None)
  {
    assert Beyond({key}, None, lt) == {key};
    assert Elements([key]) == {key};
    SortIsOnly([key], {key}, lt);
  }

  lemma PageOfOneItem(st: Store, later: Store, q: Query, limit: int, info: MediaInfo)
    requires QueryOk(q) && st.media == map[2 := OwnMedia(info, 0)] && Wanted(st, q.nfc, q.filter, 2)
    ensures ReplyAsRead(st, later, q.coll, q.nfc, q.codec, limit, "", q.filter)
            == Ok(([Media(2, info, 0, Attached(later, q.coll, 2))], ""))
  {
    MediaOrderIsTotal();
    var keys := WantedKeys(st, q.nfc, q.filter);
    WantedKeysAreRows(st, q.nfc, q.filter);
    assert MediaKey(0, 2) in keys;
    assert keys == {MediaKey(0, 2)};
    OneKey(MediaKey(0, 2), ClampLimit(limit), MediaOrder());
    ReplyOfPage(st, later, q.coll, q.nfc, q.codec, limit, "", q.filter, [MediaKey(0, 2)], None);
    assert ItemsAsRead(st, later, q.coll, [MediaKey(0, 2)]) == [Media(2, info, 0, Attached(later, q.coll, 2))];
  }

  lemma NothingAttached(st: Store, coll: Collation, m: Uuid)
    requires StrictTotalOrder(coll) && forall id :: id in st.tags ==> Link(m, id) !in st.links
    ensures Attached(st, coll, m) == []
  {
    TagOrderIsTotal(coll);
    assert AttachedKeys(st, m) == {};
  }

  // Selected by tag 1, returned without it: the tag is deleted, or detached, between the two reads.
  lemma ReturnedWithoutItsTag(t: Uuid, rls: bool, info: MediaInfo, coll: Collation, nfc: Normalizer,
                              codec: Codec<MediaKey>, limit: int, deleted: bool)
    requires StrictTotalOrder(coll) && RoundTrips(codec)
    ensures var q := Query(coll, nfc, codec, RawFilter([1], []));
            var between := [Request(t, if deleted then DeleteTag(1) else DetachTag(2, 1))];
            && QueryOk(q) && Requested(q, ById(1)) && IsHistory(OneItem(t, info), rls, coll, between)
            && var v := VisitOf(OneItem(t, info), rls, coll, between, t, limit);
               ReplyAsRead(v.store, v.tagStore, coll, nfc, codec, limit, "", q.filter)
               == Ok(([Media(2, info, 0, [])], ""))
  {
    var db, q := OneItem(t, info), Query(coll, nfc, codec, RawFilter([1], []));
    var op := if deleted then DeleteTag(1) else DetachTag(2, 1);
    var st := Project(db, t);
    assert Link(2, 1) in st.links && st.media == map[2 := OwnMedia(info, 0)];
    var db1 := Exec(db, Session(t, rls), coll, op).0;
    assert ExecAll(db, rls, coll, [Request(t, op)]).0 == db1;
    NothingAttached(Project(db1, t), coll, 2);
    PageOfOneItem(st, Project(db1, t), q, limit, info);
  }

  lemma OneAttached(st: Store, coll: Collation, m: Uuid, id: Uuid)
    requires StrictTotalOrder(coll) && id in st.tags && Link(m, id) in st.links
    requires forall other :: other in st.tags && Link(m, other) in st.links ==> other == id
    ensures Attached(st, coll, m) == [Tag(id, st.tags[id].name, st.tags[id].createdAt)]
  {
    TagOrderIsTotal(coll);
    var key := TagKey(st.tags[id].name, id);
    assert key in AttachedKeys(st, m) && AttachedKeys(st, m) == {key};
    assert Elements([key]) == {key};
    SortIsOnly([key], {key}, TagOrder(coll));
  }

  lemma LetterIsFixed(nfc: Normalizer)
    requires nfc("a") == "a"
    ensures Sanitized(nfc, Text("a")) == Ok("a")
  {
    assert Utf8Length("a") == 1;
    CanonicalIsFixed(nfc, "a");
  }

  function OneItemOwn(name: string, info: MediaInfo): Store {
    Store(map[1 := OwnTag(name, 0)], map[2 := OwnMedia(info, 0)], {Link(2, 1)})
  }

  lemma OneItemRenamed(t: Uuid, rls: bool, info: MediaInfo, coll: Collation)
    requires StrictTotalOrder(coll)
    ensures var between := [Request(t, RenameTag(1, "b"))];
            && IsHistory(OneItem(t, info), rls, coll, between)
            && Project(OneItem(t, info), t) == OneItemOwn("a", info)
            && Project(ExecAll(OneItem(t, info), rls, coll, between).0, t) == OneItemOwn("b", info)
  {
    var db1 := DoRenameTag(OneItem(t, info), Session(t, rls), 1, "b").0;
    assert Project(db1, t).tags == OneItemOwn("b", info).tags;
    assert Project(db1, t).media == OneItemOwn("b", info).media;
    assert Project(db1, t).links == OneItemOwn("b", info).links;
    var st := Project(OneItem(t, info), t);
    assert st.tags == OneItemOwn("a", info).tags && st.media == OneItemOwn("a", info).media;
    assert st.links == OneItemOwn("a", info).links;
  }

  // Selected by the name "a", returned with no tag of that name: the tag is renamed in between.
  lemma ReturnedUnderAnotherName(t: Uuid, rls: bool, info: MediaInfo, coll: Collation, nfc: Normalizer,
                                 codec: Codec<MediaKey>, limit: int)
    requires StrictTotalOrder(coll) && RoundTrips(codec) && nfc("a") == "a"
    ensures var q := Query(coll, nfc, codec, RawFilter([], [Text("a")]));
            var between := [Request(t, RenameTag(1, "b"))];
            && QueryOk(q) && Requested(q, ByName("a")) && IsHistory(OneItem(t, info), rls, coll, between)
            && var v := VisitOf(OneItem(t, info), rls, coll, between, t, limit);
               ReplyAsRead(v.store, v.tagStore, coll, nfc, codec, limit, "", q.filter)
               == Ok(([Media(2, info, 0, [Tag(1, "b", 0)])], ""))
  {
    OneItemRenamed(t, rls, info, coll);
    OneAttached(OneItemOwn("b", info), coll, 2, 1);
    SelectedByName(OneItemOwn("a", info), OneItemOwn("b", info), info, coll, nfc, codec, limit);
  }

  lemma SelectedByName(st: Store, later: Store, info: MediaInfo, coll: Collation, nfc: Normalizer,
                       codec: Codec<MediaKey>, limit: int)
    requires StrictTotalOrder(coll) && RoundTrips(codec) && nfc("a") == "a" && st == OneItemOwn("a", info)
    ensures var q := Query(coll, nfc, codec, RawFilter([], [Text("a")]));
            && QueryOk(q) && Requested(q, ByName("a"))
            && ReplyAsRead(st, later, coll, nfc, codec, limit, "", q.filter)
               == Ok(([Media(2, info, 0, Attached(later, coll, 2))], ""))
  {
    var q := Query(coll, nfc, codec, RawFilter([], [Text("a")]));
    LetterIsFixed(nfc);
    assert Sanitized(nfc, q.filter.tagNames[0]) == Ok("a");
    assert 1 in st.tags && Link(2, 1) in st.links;
    PageOfOneItem(st, later, q, limit, info);
  }
}
