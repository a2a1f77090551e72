// internal/service/media_service.go and tag_service.go: bounds, deduplication, name sanitizing and
// cursors around the repositories.
module MediaService {
  import opened Common
  import opened Ordering
  import opened Keyset
  import opened Cursor
  import opened Sanitize
  import opened Catalog
  import opened TenantStore
  import opened TenantIsolation
  import opened CatalogRepo

  const MAX_TAGS := 50

  function ClampLimit(limit: int): (n: nat)
    ensures 1 <= n <= 100
    ensures 1 <= limit <= 100 ==> n == limit
    ensures (limit <= 0 ==> n == 50) && (limit > 100 ==> n == 100)
  {
    if limit <= 0 then 50 else if limit > 100 then 100 else limit
  }

  // ---- deduplicateUUIDs ----

  // The entries of s, each at its first occurrence.
  function Dedup<T(==, !new)>(s: seq<T>): (r: seq<T>)
    ensures NoDuplicates(r) && Elements(r) == Elements(s)
  {
    if |s| == 0 then []
    else
      var init := Dedup(s[..|s| - 1]);
      var last := s[|s| - 1];
      assert s == s[..|s| - 1] + [last];
      assert forall x :: x in init <==> x in Elements(init);
      if last in init then init else init + [last]
  }

  // The kept entries come in the order in which they first appeared.
  lemma {:induction false} DedupKeepsOrder<T(!new)>(s: seq<T>, i: nat, j: nat)
    requires i < j < |Dedup(s)|
    ensures exists p, q :: 0 <= p < q < |s| && s[p] == Dedup(s)[i] && s[q] == Dedup(s)[j]
                           && Dedup(s)[j] !in s[..q]
  {
    var n := |s| - 1;
    var init := s[..n];
    if j < |Dedup(init)| {
      DedupKeepsOrder(init, i, j);
      var p, q :| 0 <= p < q < |init| && init[p] == Dedup(init)[i] && init[q] == Dedup(init)[j]
        && Dedup(init)[j] !in init[..q];
      assert init[..q] == s[..q] && s[p] == init[p] && s[q] == init[q];
    } else {
      assert Dedup(init)[i] in Elements(Dedup(init)) && Dedup(init)[i] in init;
      var p :| 0 <= p < n && init[p] == Dedup(init)[i];
      assert s[p] == init[p] && s[n] == Dedup(s)[j];
      assert s[n] !in Elements(init);
    }
  }

  lemma DedupSnoc<T(!new)>(s: seq<T>, x: T)
    ensures Dedup(s + [x]) == if x in Elements(Dedup(s)) then Dedup(s) else Dedup(s) + [x]
    ensures Elements(Dedup(s + [x])) == Elements(Dedup(s)) + {x}
  {
    assert (s + [x])[..|s|] == s;
    assert x in Dedup(s) <==> x in Elements(Dedup(s));
    assert Elements(s + [x]) == Elements(s) + {x};
  }

  method Deduplicate<T(==, !new)>(ids: seq<T>) returns (result: seq<T>)
    ensures result == Dedup(ids)
  {
    if |ids| == 0 {
      return ids;
    }
    var seen: set<T> := {};
    result := [];
    for i := 0 to |ids|
      invariant result == Dedup(ids[..i]) && seen == Elements(result)
    {
      assert ids[..i + 1] == ids[..i] + [ids[i]];
      DedupSnoc(ids[..i], ids[i]);
      if ids[i] !in seen {
        seen := seen + {ids[i]};
        result := result + [ids[i]];
      }
    }
    assert ids[..|ids|] == ids;
  }

  // ---- Filters ----

  datatype RawFilter = RawFilter(tagIds: seq<Uuid>, tagNames: seq<Raw>)

  // A list of names, sanitized one by one, or the first failure: they are all ErrValidation.
  function Each(sanitize: Raw -> Result<string, Error>, raws: seq<Raw>): (r: Result<seq<string>, Error>)
    ensures r.Ok? <==> forall i :: 0 <= i < |raws| ==> sanitize(raws[i]).Ok?
    ensures r.Ok? ==> |r.value| == |raws| && forall i :: 0 <= i < |raws| ==> Ok(r.value[i]) == sanitize(raws[i])
    ensures r.Err? ==> r.error == ErrValidation
  {
    if |raws| == 0 then Ok([])
    else
      var n := |raws| - 1;
      var init := Each(sanitize, raws[..n]);
      assert raws == raws[..n] + [raws[n]];
      if init.Err? || sanitize(raws[n]).Err? then Err(ErrValidation) else Ok(init.value + [sanitize(raws[n]).value])
  }

  function Names(nfc: Normalizer, raws: seq<Raw>): (r: Result<seq<string>, Error>)
    ensures r.Ok? <==> forall i :: 0 <= i < |raws| ==> Sanitized(nfc, raws[i]).Ok?
    ensures r.Ok? ==> |r.value| == |raws| && forall i :: 0 <= i < |raws| ==> Ok(r.value[i]) == Sanitized(nfc, raws[i])
    ensures r.Err? ==> r.error == ErrValidation
  {
    Each(raw => Sanitized(nfc, raw), raws)
  }

  lemma NamesFail(nfc: Normalizer, raws: seq<Raw>, i: nat)
    requires i < |raws| && Sanitized(nfc, raws[i]).Err?
    ensures Names(nfc, raws) == Err(ErrValidation)
  {
  }

  lemma NamesSnoc(nfc: Normalizer, raws: seq<Raw>, i: nat)
    requires i < |raws| && Names(nfc, raws[..i]).Ok? && Sanitized(nfc, raws[i]).Ok?
    ensures Names(nfc, raws[..i + 1]) == Ok(Names(nfc, raws[..i]).value + [Sanitized(nfc, raws[i]).value])
  {
    assert raws[..i + 1][..i] == raws[..i];
  }

  method SanitizeFilterNames(nfc: Normalizer, raws: seq<Raw>) returns (r: Result<seq<string>, Error>)
    ensures r == match Names(nfc, raws) case Err(error) => Err(error) case Ok(names) => Ok(Dedup(names))
  {
    var seen: set<string> := {};
    var normalized: seq<string> := [];
    for i := 0 to |raws|
      invariant Names(nfc, raws[..i]).Ok?
      invariant normalized == Dedup(Names(nfc, raws[..i]).value)
      invariant seen == Elements(Dedup(Names(nfc, raws[..i]).value))
    {
      var name := SanitizeName(nfc, raws[i]);
      if name.Err? {
        NamesFail(nfc, raws, i);
        return Err(ErrValidation);
      }
      NamesSnoc(nfc, raws, i);
      DedupSnoc(Names(nfc, raws[..i]).value, name.value);
      if name.value !in seen {
        seen := seen + {name.value};
        normalized := normalized + [name.value];
      } else {
        assert seen + {name.value} == seen;
      }
    }
    assert raws[..|raws|] == raws;
    return Ok(normalized);
  }

  // The reference: the media item carries every requested tag, however often and in whatever
  // spelling a tag is requested. Ids take precedence over names.
  ghost predicate Wanted(st: Store, nfc: Normalizer, filter: RawFilter, m: Uuid) {
    && m in st.media
    && if |filter.tagIds| > 0 then forall id :: id in filter.tagIds ==> Link(m, id) in st.links
       else forall i :: 0 <= i < |filter.tagNames| ==>
              exists id :: id in st.tags && Ok(st.tags[id].name) == Sanitized(nfc, filter.tagNames[i])
                && Link(m, id) in st.links
  }

  ghost function WantedKeys(st: Store, nfc: Normalizer, filter: RawFilter): set<MediaKey> {
    set m | m in st.media && Wanted(st, nfc, filter, m) :: MediaKey(st.media[m].createdAt, m)
  }

  lemma WantedKeysAreRows(st: Store, nfc: Normalizer, filter: RawFilter)
    ensures forall k :: k in WantedKeys(st, nfc, filter) ==>
              k.id in st.media && k.createdAt == st.media[k.id].createdAt && Wanted(st, nfc, filter, k.id)
  {
  }

  predicate FilterOk(nfc: Normalizer, filter: RawFilter) {
    && |filter.tagIds| <= MAX_TAGS && |filter.tagNames| <= MAX_TAGS
    && Names(nfc, filter.tagNames).Ok?
  }

  function Prepared(nfc: Normalizer, filter: RawFilter): Filter
    requires FilterOk(nfc, filter)
  {
    Filter(Dedup(filter.tagIds), Dedup(Names(nfc, filter.tagNames).value))
  }

  lemma DedupedIds(st: Store, m: Uuid, ids: seq<Uuid>)
    ensures CarriesIds(st, m, Dedup(ids)) <==> forall id :: id in ids ==> Link(m, id) in st.links
    ensures |Dedup(ids)| > 0 <==> |ids| > 0
  {
    assert forall id :: id in Dedup(ids) <==> id in Elements(ids);
    if |ids| > 0 {
      assert ids[0] in Elements(ids) && ids[0] in Dedup(ids);
    }
  }

  lemma DedupedNames(st: Store, nfc: Normalizer, m: Uuid, raws: seq<Raw>)
    requires Names(nfc, raws).Ok?
    ensures var names := Dedup(Names(nfc, raws).value);
            CarriesNames(st, m, names) <==>
            forall i :: 0 <= i < |raws| ==>
              exists id :: id in st.tags && Ok(st.tags[id].name) == Sanitized(nfc, raws[i]) && Link(m, id) in st.links
    ensures |Dedup(Names(nfc, raws).value)| > 0 <==> |raws| > 0
  {
    var all := Names(nfc, raws).value;
    var names := Dedup(all);
    assert forall n :: n in names <==> n in Elements(all);
    if CarriesNames(st, m, names) {
      forall i | 0 <= i < |raws|
        ensures exists id :: id in st.tags && Ok(st.tags[id].name) == Sanitized(nfc, raws[i]) && Link(m, id) in st.links
      {
        assert all[i] in names;
        var id :| id in TagsNamed(st, all[i]) && Link(m, id) in st.links;
      }
    }
    if forall i :: 0 <= i < |raws| ==>
        exists id :: id in st.tags && Ok(st.tags[id].name) == Sanitized(nfc, raws[i]) && Link(m, id) in st.links {
      forall n | n in names
        ensures exists id :: id in TagsNamed(st, n) && Link(m, id) in st.links
      {
        var i :| 0 <= i < |all| && all[i] == n;
        var id :| id in st.tags && Ok(st.tags[id].name) == Sanitized(nfc, raws[i]) && Link(m, id) in st.links;
        assert id in TagsNamed(st, n);
      }
    }
    if |raws| > 0 {
      assert all[0] in names;
    }
  }

  // After the service's preparation, counting selects exactly the items that carry every tag.
  lemma PreparedFilterIsContainment(st: Store, nfc: Normalizer, filter: RawFilter)
    requires FilterOk(nfc, filter)
    ensures MatchingKeys(st, Prepared(nfc, filter)) == WantedKeys(st, nfc, filter)
  {
    forall m
      ensures Matches(st, Prepared(nfc, filter), m) <==> Wanted(st, nfc, filter, m)
    {
      DedupedIds(st, m, filter.tagIds);
      DedupedNames(st, nfc, m, filter.tagNames);
    }
  }

  // ---- List ----

  // GET /media against the tenant's own store.
  ghost function ListReply(st: Store, coll: Collation, nfc: Normalizer, codec: Codec<MediaKey>,
                           limit: int, cursor: string, filter: RawFilter): Result<(seq<Media>, string), Error>
    requires StrictTotalOrder(coll)
  {
    if DecodeCursor(codec, cursor).Err? || !FilterOk(nfc, filter) then Err(ErrValidation)
    else
      MediaOrderIsTotal();
      var keys := WantedKeys(st, nfc, filter);
      var (page, next) := PageOf(keys, DecodeCursor(codec, cursor).value, ClampLimit(limit), MediaOrder());
      PageFacts(keys, DecodeCursor(codec, cursor).value, ClampLimit(limit), MediaOrder());
      Ok((OwnItems(st, coll, page), EncodeCursor(codec, next)))
  }

  // listInTx reads twice, under READ COMMITTED: the page, and then the tags of its items, which other
  // transactions may have changed by then, or deleted with their items.
  ghost function ItemsAsRead(st: Store, later: Store, coll: Collation, keys: seq<MediaKey>): seq<Media>
    requires StrictTotalOrder(coll) && forall k :: k in keys ==> k.id in st.media
  {
    seq(|keys|, i requires 0 <= i < |keys| =>
      Media(keys[i].id, st.media[keys[i].id].info, st.media[keys[i].id].createdAt, Attached(later, coll, keys[i].id)))
  }

  // The reply when the tenant's store is st at the first read and later at the second.
  ghost function ReplyAsRead(st: Store, later: Store, coll: Collation, nfc: Normalizer, codec: Codec<MediaKey>,
                             limit: int, cursor: string, filter: RawFilter): Result<(seq<Media>, string), Error>
    requires StrictTotalOrder(coll)
  {
    if DecodeCursor(codec, cursor).Err? || !FilterOk(nfc, filter) then Err(ErrValidation)
    else
      MediaOrderIsTotal();
      var keys := WantedKeys(st, nfc, filter);
      var (page, next) := PageOf(keys, DecodeCursor(codec, cursor).value, ClampLimit(limit), MediaOrder());
      PageFacts(keys, DecodeCursor(codec, cursor).value, ClampLimit(limit), MediaOrder());
      Ok((ItemsAsRead(st, later, coll, page), EncodeCursor(codec, next)))
  }

  // With nothing in between it is the reply of one moment.
  lemma ReadAtOneMoment(st: Store, coll: Collation, nfc: Normalizer, codec: Codec<MediaKey>,
                        limit: int, cursor: string, filter: RawFilter)
    requires StrictTotalOrder(coll)
    ensures ReplyAsRead(st, st, coll, nfc, codec, limit, cursor, filter)
            == ListReply(st, coll, nfc, codec, limit, cursor, filter)
  {
    if DecodeCursor(codec, cursor).Ok? && FilterOk(nfc, filter) {
      MediaOrderIsTotal();
      var keys := WantedKeys(st, nfc, filter);
      var page := PageOf(keys, DecodeCursor(codec, cursor).value, ClampLimit(limit), MediaOrder()).0;
      PageFacts(keys, DecodeCursor(codec, cursor).value, ClampLimit(limit), MediaOrder());
      assert ItemsAsRead(st, st, coll, page) == OwnItems(st, coll, page);
    }
  }

  lemma ReplyOfPage(st: Store, later: Store, coll: Collation, nfc: Normalizer, codec: Codec<MediaKey>,
                    limit: int, cursor: string, filter: RawFilter, keys: seq<MediaKey>, next: Option<MediaKey>)
    requires StrictTotalOrder(coll) && StrictTotalOrder(MediaOrder())
    requires DecodeCursor(codec, cursor).Ok? && FilterOk(nfc, filter)
    requires (keys, next) == PageOf(WantedKeys(st, nfc, filter), DecodeCursor(codec, cursor).value,
                                    ClampLimit(limit), MediaOrder())
    ensures forall k :: k in keys ==> k.id in st.media
    ensures ReplyAsRead(st, later, coll, nfc, codec, limit, cursor, filter)
            == Ok((ItemsAsRead(st, later, coll, keys), EncodeCursor(codec, next)))
  {
    PageFacts(WantedKeys(st, nfc, filter), DecodeCursor(codec, cursor).value, ClampLimit(limit), MediaOrder());
  }

  lemma ItemsProject(db: Tables, later: Tables, ses: Session, coll: Collation, keys: seq<MediaKey>, items: seq<Media>)
    requires Inv(later) && StrictTotalOrder(coll)
    requires forall k :: k in keys ==> k.id in Project(db, ses.tenant).media
    requires |items| == |keys| && forall i :: 0 <= i < |keys| ==>
               && keys[i].id in db.media
               && items[i] == Media(keys[i].id, db.media[keys[i].id].info, db.media[keys[i].id].createdAt,
                                    MediaTags(later, ses, coll, keys[i].id))
    ensures items == ItemsAsRead(Project(db, ses.tenant), Project(later, ses.tenant), coll, keys)
  {
    forall i | 0 <= i < |keys|
      ensures items[i] == ItemsAsRead(Project(db, ses.tenant), Project(later, ses.tenant), coll, keys)[i]
    {
      assert keys[i] in keys;
      MediaTagsProject(later, ses, coll, keys[i].id);
    }
  }

  lemma WantedKeysProject(db: Tables, ses: Session, nfc: Normalizer, filter: RawFilter)
    requires Inv(db) && FilterOk(nfc, filter)
    ensures MediaKeys(db, ses, Prepared(nfc, filter)) == WantedKeys(Project(db, ses.tenant), nfc, filter)
  {
    MediaKeysProject(db, ses, Prepared(nfc, filter));
    PreparedFilterIsContainment(Project(db, ses.tenant), nfc, filter);
  }

  // What PageQuery reads from one state of the tables and LoadTagsInto from another make up this reply.
  lemma ReplyFromTwoReads(db: Tables, later: Tables, ses: Session, coll: Collation, nfc: Normalizer,
                          codec: Codec<MediaKey>, limit: int, cursor: string, filter: RawFilter,
                          keys: seq<MediaKey>, next: Option<MediaKey>, items: seq<Media>)
    requires Inv(db) && Inv(later) && StrictTotalOrder(coll) && StrictTotalOrder(MediaOrder())
    requires DecodeCursor(codec, cursor).Ok? && FilterOk(nfc, filter)
    requires (keys, next) == PageOf(MediaKeys(db, ses, Prepared(nfc, filter)), DecodeCursor(codec, cursor).value,
                                    ClampLimit(limit), MediaOrder())
    requires |items| == |keys| && forall i :: 0 <= i < |keys| ==>
               && keys[i].id in db.media
               && items[i] == Media(keys[i].id, db.media[keys[i].id].info, db.media[keys[i].id].createdAt,
                                    MediaTags(later, ses, coll, keys[i].id))
    ensures ReplyAsRead(Project(db, ses.tenant), Project(later, ses.tenant), coll, nfc, codec, limit, cursor, filter)
            == Ok((items, EncodeCursor(codec, next)))
  {
    WantedKeysProject(db, ses, nfc, filter);
    ReplyOfPage(Project(db, ses.tenant), Project(later, ses.tenant), coll, nfc, codec, limit, cursor, filter, keys,
                next);
    ItemsProject(db, later, ses, coll, keys, items);
  }

  lemma ListReplyFromRun(st: Store, coll: Collation, nfc: Normalizer, codec: Codec<MediaKey>,
                         limit: int, cursor: string, filter: RawFilter)
    requires StrictTotalOrder(coll) && DecodeCursor(codec, cursor).Ok? && FilterOk(nfc, filter)
    ensures var op := ListMedia(ClampLimit(limit), DecodeCursor(codec, cursor).value, Prepared(nfc, filter));
            var reply := Run(st, coll, op).1;
            reply.MediaPage? && ListReply(st, coll, nfc, codec, limit, cursor, filter)
                                == Ok((reply.items, EncodeCursor(codec, reply.nextMedia)))
  {
    PreparedFilterIsContainment(st, nfc, filter);
  }

  lemma ListReplyFromTables(db: Tables, ses: Session, coll: Collation, nfc: Normalizer, codec: Codec<MediaKey>,
                            limit: int, cursor: string, filter: RawFilter)
    requires Inv(db) && StrictTotalOrder(coll) && DecodeCursor(codec, cursor).Ok? && FilterOk(nfc, filter)
    ensures var page := DoListMedia(db, ses, coll, ClampLimit(limit), DecodeCursor(codec, cursor).value,
                                    Prepared(nfc, filter));
            ListReply(Project(db, ses.tenant), coll, nfc, codec, limit, cursor, filter)
            == Ok((page.items, EncodeCursor(codec, page.nextMedia)))
  {
    ListReplyFromRun(Project(db, ses.tenant), coll, nfc, codec, limit, cursor, filter);
    ListMediaSimulates(db, ses, coll, ClampLimit(limit), DecodeCursor(codec, cursor).value, Prepared(nfc, filter));
  }

  ghost function KeysOf(items: seq<Media>): seq<MediaKey> {
    seq(|items|, i requires 0 <= i < |items| => MediaKey(items[i].createdAt, items[i].id))
  }

  lemma ReplyKeys(st: Store, later: Store, coll: Collation, nfc: Normalizer, codec: Codec<MediaKey>, limit: int,
                  cursor: string, filter: RawFilter, items: seq<Media>, next: string)
    requires StrictTotalOrder(coll)
    requires ReplyAsRead(st, later, coll, nfc, codec, limit, cursor, filter) == Ok((items, next))
    ensures DecodeCursor(codec, cursor).Ok? && StrictTotalOrder(MediaOrder())
    ensures KeysOf(items) == PageOf(WantedKeys(st, nfc, filter), DecodeCursor(codec, cursor).value, ClampLimit(limit),
                                    MediaOrder()).0
  {
    MediaOrderIsTotal();
    var wanted, c := WantedKeys(st, nfc, filter), DecodeCursor(codec, cursor).value;
    var (keys, end) := PageOf(wanted, c, ClampLimit(limit), MediaOrder());
    ReplyOfPage(st, later, coll, nfc, codec, limit, cursor, filter, keys, end);
    PageFacts(wanted, c, ClampLimit(limit), MediaOrder());
    forall i | 0 <= i < |items|
      ensures KeysOf(items)[i] == keys[i]
    {
      assert keys[i] in wanted;
    }
  }

  // The columns the client sees: newest first, at the same moment the larger id first.
  lemma RepliesAreNewestFirst(st: Store, later: Store, coll: Collation, nfc: Normalizer, codec: Codec<MediaKey>,
                              limit: int, cursor: string, filter: RawFilter, items: seq<Media>, next: string)
    requires StrictTotalOrder(coll)
    requires ReplyAsRead(st, later, coll, nfc, codec, limit, cursor, filter) == Ok((items, next))
    ensures forall i, j :: 0 <= i < j < |items| ==>
              items[i].createdAt > items[j].createdAt
              || (items[i].createdAt == items[j].createdAt && items[i].id > items[j].id)
    ensures cursor != "" ==>
              && codec.decode(cursor).Some?
              && var after := codec.decode(cursor).value;
                 forall i :: 0 <= i < |items| ==>
                   items[i].createdAt < after.createdAt
                   || (items[i].createdAt == after.createdAt && items[i].id < after.id)
  {
    ReplyKeys(st, later, coll, nfc, codec, limit, cursor, filter, items, next);
    NewestFirst(WantedKeys(st, nfc, filter), DecodeCursor(codec, cursor).value, ClampLimit(limit));
    assert forall i :: 0 <= i < |items| ==> KeysOf(items)[i] == MediaKey(items[i].createdAt, items[i].id);
  }

  // A wanted item that the first page leaves out is older than every item on it.
  lemma FirstPageIsNewest(st: Store, later: Store, coll: Collation, nfc: Normalizer, codec: Codec<MediaKey>,
                          limit: int, cursor: string, filter: RawFilter, items: seq<Media>, next: string)
    requires StrictTotalOrder(coll) && cursor == ""
    requires ReplyAsRead(st, later, coll, nfc, codec, limit, cursor, filter) == Ok((items, next))
    ensures forall k, i | k in WantedKeys(st, nfc, filter) && 0 <= i < |items| ::
              k in KeysOf(items)
              || (|items| == ClampLimit(limit)
                  && (items[i].createdAt > k.createdAt || (items[i].createdAt == k.createdAt && items[i].id > k.id)))
  {
    ReplyKeys(st, later, coll, nfc, codec, limit, cursor, filter, items, next);
    var wanted := WantedKeys(st, nfc, filter);
    forall k, i | k in wanted && 0 <= i < |items| && k !in KeysOf(items)
      ensures |items| == ClampLimit(limit)
              && (items[i].createdAt > k.createdAt || (items[i].createdAt == k.createdAt && items[i].id > k.id))
    {
      assert KeysOf(items)[i] == MediaKey(items[i].createdAt, items[i].id);
      OlderStaysOut(wanted, None, ClampLimit(limit), k, i);
    }
  }

  // The same of the objects that List returns.
  lemma ItemsAreNewestFirst(st: Store, coll: Collation, nfc: Normalizer, codec: Codec<MediaKey>, limit: int,
                            cursor: string, filter: RawFilter, items: seq<MediaItem>, next: string)
    requires StrictTotalOrder(coll)
    requires ListReply(st, coll, nfc, codec, limit, cursor, filter) == Ok((Values(items), next))
    ensures forall i, j :: 0 <= i < j < |items| ==>
              items[i].createdAt > items[j].createdAt
              || (items[i].createdAt == items[j].createdAt && items[i].id > items[j].id)
    ensures cursor != "" ==>
              && codec.decode(cursor).Some?
              && var after := codec.decode(cursor).value;
                 forall i :: 0 <= i < |items| ==>
                   items[i].createdAt < after.createdAt
                   || (items[i].createdAt == after.createdAt && items[i].id < after.id)
  {
    var values := Values(items);
    ReadAtOneMoment(st, coll, nfc, codec, limit, cursor, filter);
    RepliesAreNewestFirst(st, st, coll, nfc, codec, limit, cursor, filter, values, next);
    assert forall i :: 0 <= i < |items| ==> values[i].createdAt == items[i].createdAt && values[i].id == items[i].id;
  }

  method PrepareFilter(nfc: Normalizer, filter: RawFilter) returns (r: Result<Filter, Error>)
    ensures r.Err? <==> |filter.tagIds| > 50 || |filter.tagNames| > 50
                        || exists i :: 0 <= i < |filter.tagNames| && Sanitized(nfc, filter.tagNames[i]).Err?
    ensures r.Err? ==> r.error == ErrValidation
    ensures r.Ok? <==> FilterOk(nfc, filter)
    ensures r.Ok? ==> r.value == Prepared(nfc, filter)
  {
    if |filter.tagIds| > MAX_TAGS || |filter.tagNames| > MAX_TAGS {
      return Err(ErrValidation);
    }
    var tagIds := Deduplicate(filter.tagIds);
    var names: seq<string> := [];
    if |filter.tagNames| > 0 {
      var sanitized := SanitizeFilterNames(nfc, filter.tagNames);
      if sanitized.Err? {
        return Err(sanitized.error);
      }
      names := sanitized.value;
    }
    return Ok(Filter(tagIds, names));
  }

  method List(repo: MediaRepo, ses: Session, coll: Collation, nfc: Normalizer, codec: Codec<MediaKey>,
              limit: int, cursor: string, filter: RawFilter)
    returns (r: Result<(seq<MediaItem>, string), Error>)
    requires Inv(repo.db.Contents()) && StrictTotalOrder(coll)
    ensures var reply := ListReply(Project(repo.db.Contents(), ses.tenant), coll, nfc, codec, limit, cursor, filter);
            match r
            case Err(error) => reply == Err(error)
            case Ok(page) => fresh(page.0) && reply == Ok((Values(page.0), page.1))
    // A malformed cursor, more than fifty tags or a name that cannot be sanitized, and nothing else, fails.
    ensures r.Err? <==>
            || (cursor != "" && codec.decode(cursor).None?)
            || |filter.tagIds| > 50 || |filter.tagNames| > 50
            || exists i :: 0 <= i < |filter.tagNames| && Sanitized(nfc, filter.tagNames[i]).Err?
    ensures r.Err? ==> r.error == ErrValidation
    // From newer to older, from the cursor on.
    ensures r.Ok? ==> forall i, j :: 0 <= i < j < |r.value.0| ==>
              r.value.0[i].createdAt > r.value.0[j].createdAt
              || (r.value.0[i].createdAt == r.value.0[j].createdAt && r.value.0[i].id > r.value.0[j].id)
    ensures r.Ok? && cursor != "" ==> forall i :: 0 <= i < |r.value.0| ==>
              r.value.0[i].createdAt < codec.decode(cursor).value.createdAt
              || (r.value.0[i].createdAt == codec.decode(cursor).value.createdAt
                  && r.value.0[i].id < codec.decode(cursor).value.id)
  {
    var bounded := limit;
    if bounded <= 0 {
      bounded := 50;
    }
    if bounded > 100 {
      bounded := 100;
    }
    var c := DecodeCursor(codec, cursor);
    if c.Err? {
      return Err(c.error);
    }
    var prepared := PrepareFilter(nfc, filter);
    if prepared.Err? {
      return Err(prepared.error);
    }
    assert bounded == ClampLimit(limit);
    var items, next := repo.List(ses, coll, bounded, c.value, prepared.value);
    ghost var st := Project(repo.db.Contents(), ses.tenant);
    ListReplyFromTables(repo.db.Contents(), ses, coll, nfc, codec, limit, cursor, filter);
    ItemsAreNewestFirst(st, coll, nfc, codec, limit, cursor, filter, items, EncodeCursor(codec, next));
    return Ok((items, EncodeCursor(codec, next)));
  }
}
