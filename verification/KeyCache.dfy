// internal/adapter/postgres/auth_verifier.go: the TTL cache and Verify.
module KeyCache {
  import opened Common

  datatype Identity = Identity(tenant: Uuid, keyId: Uuid, scopes: seq<string>, expiresAt: Option<Time>)

  // A row of api_keys; scopes is None when its JSON does not parse.
  datatype KeyRow = KeyRow(id: Uuid, tenant: Uuid, scopes: Option<seq<string>>, expiresAt: Option<Time>)

  // api_keys by key_hash, and the tenants whose status is suspended.
  datatype Directory = Directory(keys: map<string, KeyRow>, suspended: set<Uuid>)

  datatype AuthError = KeyMissing | KeyInvalid | KeyRevoked | KeyExpired | LookupFailed

  datatype Entry = Entry(identity: Identity, expires: Time)

  // hashKey, taken as an injective function.
  type Hash = string -> string

  ghost predicate Injective(hash: Hash) {
    forall a, b :: hash(a) == hash(b) ==> a == b
  }

  // The query and the checks after it.
  function Accept(dir: Directory, hashed: string, now: Time): Result<Identity, AuthError> {
    if hashed !in dir.keys then Err(KeyInvalid)
    else
      var row := dir.keys[hashed];
      if row.tenant in dir.suspended then Err(KeyRevoked)
      else if row.expiresAt.Some? && row.expiresAt.value <= now then Err(KeyExpired)
      else if row.scopes.None? then Err(LookupFailed)
      else Ok(Identity(row.tenant, row.id, row.scopes.value, row.expiresAt))
  }

  function Cached(ttl: int, items: map<string, Entry>, hashed: string, now: Time): Option<Identity> {
    if ttl > 0 && hashed in items && now < items[hashed].expires then Some(items[hashed].identity) else None
  }

  function WithEntry(ttl: int, items: map<string, Entry>, hashed: string, identity: Identity,
                     now: Time): map<string, Entry> {
    if ttl <= 0 then items else items[hashed := Entry(identity, now + ttl)]
  }

  class Cache {
    const ttl: int
    var items: map<string, Entry>

    constructor (ttl: int)
      ensures this.ttl == ttl && items == map[]
    {
      this.ttl := ttl;
      items := map[];
    }

    method Get(hashed: string, now: Time) returns (r: Option<Identity>)
      ensures r == Cached(ttl, items, hashed, now)
    {
      if ttl <= 0 {
        return None;
      }
      if hashed in items && now < items[hashed].expires {
        return Some(items[hashed].identity);
      }
      return None;
    }

    method Put(hashed: string, identity: Identity, now: Time)
      modifies this
      ensures items == WithEntry(ttl, old(items), hashed, identity, now)
    {
      if ttl <= 0 {
        return;
      }
      items := items[hashed := Entry(identity, now + ttl)];
    }

    method Clear()
      modifies this
      ensures items == map[]
    {
      items := map[];
    }
  }

  class AuthVerifier {
    const cache: Cache

    constructor (ttl: int)
      ensures fresh(cache) && cache.ttl == ttl && cache.items == map[]
    {
      cache := new Cache(ttl);
    }

    // getAt, lookAt and putAt are the times of the cache read, the checks and the cache write; queryOk
    // says whether the query succeeds.
    method Verify(hash: Hash, dir: Directory, rawKey: string, getAt: Time, lookAt: Time, putAt: Time, queryOk: bool)
      returns (r: Result<Identity, AuthError>)
      modifies cache
      ensures rawKey == "" ==> r == Err(KeyMissing) && cache.items == old(cache.items)
      ensures rawKey != "" ==>
                var hit := Cached(cache.ttl, old(cache.items), hash(rawKey), getAt);
                var looked := if queryOk then Accept(dir, hash(rawKey), lookAt) else Err(LookupFailed);
                && r == (if hit.Some? then Ok(hit.value) else looked)
                && cache.items == if hit.None? && looked.Ok?
                                  then WithEntry(cache.ttl, old(cache.items), hash(rawKey), looked.value, putAt)
                                  else old(cache.items)
      // An entry answers until it expires.
      ensures rawKey != "" && cache.ttl > 0 && hash(rawKey) in old(cache.items)
              && getAt < old(cache.items)[hash(rawKey)].expires ==>
                r == Ok(old(cache.items)[hash(rawKey)].identity) && cache.items == old(cache.items)
      // Without one the key's row decides, and an accepted key is cached for ttl.
      ensures rawKey != "" && !(cache.ttl > 0 && hash(rawKey) in old(cache.items)
                                && getAt < old(cache.items)[hash(rawKey)].expires) ==>
                var hashed := hash(rawKey);
                && (!queryOk ==> r == Err(LookupFailed))
                && (queryOk && hashed !in dir.keys ==> r == Err(KeyInvalid))
                && (queryOk && hashed in dir.keys ==>
                      var row := dir.keys[hashed];
                      var expired := row.expiresAt.Some? && row.expiresAt.value <= lookAt;
                      && (r.Ok? <==> row.tenant !in dir.suspended && !expired && row.scopes.Some?)
                      && (row.tenant in dir.suspended ==> r == Err(KeyRevoked))
                      && (row.tenant !in dir.suspended && expired ==> r == Err(KeyExpired))
                      && (row.tenant !in dir.suspended && !expired && row.scopes.None? ==> r == Err(LookupFailed))
                      && (r.Ok? ==> r.value.tenant == row.tenant && r.value.keyId == row.id
                                    && r.value.scopes == row.scopes.value && r.value.expiresAt == row.expiresAt))
                && cache.items == if r.Ok? && cache.ttl > 0
                                  then old(cache.items)[hashed := Entry(r.value, putAt + cache.ttl)]
                                  else old(cache.items)
    {
      if rawKey == "" {
        return Err(KeyMissing);
      }
      var hashed := hash(rawKey);
      var hit := cache.Get(hashed, getAt);
      if hit.Some? {
        return Ok(hit.value);
      }
      if !queryOk {
        return Err(LookupFailed);
      }
      if hashed !in dir.keys {
        return Err(KeyInvalid);
      }
      var row := dir.keys[hashed];
      if row.tenant in dir.suspended {
        return Err(KeyRevoked);
      }
      if row.expiresAt.Some? && row.expiresAt.value <= lookAt {
        return Err(KeyExpired);
      }
      if row.scopes.None? {
        return Err(LookupFailed);
      }
      var identity := Identity(row.tenant, row.id, row.scopes.value, row.expiresAt);
      cache.Put(hashed, identity, putAt);
      return Ok(identity);
    }

    method InvalidateCache()
      modifies cache
      ensures cache.items == map[]
    {
      cache.Clear();
    }
  }
}
