// AuthVerifier.Verify by any number of concurrent requests, while keys and tenants change, the
// clock advances and the cache is invalidated.
module KeyCacheRuns {
  import opened Common
  import opened KeyCache

  // A request past its cache miss: the lookup is to come, or has accepted the key and the entry is
  // still to be written. lookup counts into the history of accepted lookups.
  datatype Phase =
    | Looking(raw: string)
    | Accepted(raw: string, identity: Identity, lookup: nat)

  datatype Lookup = Lookup(raw: string, identity: Identity, at: Time)
  datatype Hit = Hit(raw: string, identity: Identity, at: Time, lookup: nat, putAt: Time)
  datatype Origin = Origin(lookup: nat, putAt: Time)

  // lookups, hits and origins are history: the accepted lookups, the answers given from the cache,
  // and where each entry came from.
  datatype System = System(
    now: Time,
    dir: Directory,
    items: map<string, Entry>,
    requests: map<nat, Phase>,
    lookups: seq<Lookup>,
    hits: seq<Hit>,
    origins: map<string, Origin>)

  datatype Step =
    | Tick(elapsed: nat)
    | Change(dir: Directory) // keys created, revoked, expired, tenants suspended
    | GetHit(raw: string)
    | GetMiss(request: nat, raw: string)
    | Look(request: nat)
    | LookFails(request: nat)
    | Write(request: nat)
    | Clear

  datatype Config = Config(ttl: int, hash: Hash)

  function Init(now: Time, dir: Directory): System {
    System(now, dir, map[], map[], [], [], map[])
  }

  predicate Enabled(cfg: Config, s: System, step: Step) {
    match step
    case GetHit(raw) => raw != "" && Cached(cfg.ttl, s.items, cfg.hash(raw), s.now).Some?
    case GetMiss(r, raw) => r !in s.requests && raw != "" && Cached(cfg.ttl, s.items, cfg.hash(raw), s.now).None?
    case Look(r) => r in s.requests && s.requests[r].Looking?
    case LookFails(r) => r in s.requests && s.requests[r].Looking?
    case Write(r) => r in s.requests && s.requests[r].Accepted?
    case _ => true
  }

  ghost predicate Tracked(s: System) {
    s.items.Keys <= s.origins.Keys
  }

  function Next(cfg: Config, s: System, step: Step): (s': System)
    requires Enabled(cfg, s, step) && Tracked(s)
    ensures Tracked(s')
  {
    match step
    case Tick(elapsed) => s.(now := s.now + elapsed)
    case Change(dir) => s.(dir := dir)
    case GetHit(raw) =>
      var hashed := cfg.hash(raw);
      var origin := s.origins[hashed];
      s.(hits := s.hits + [Hit(raw, s.items[hashed].identity, s.now, origin.lookup, origin.putAt)])
    case GetMiss(r, raw) => s.(requests := s.requests[r := Looking(raw)])
    case Look(r) =>
      var raw := s.requests[r].raw;
      (match Accept(s.dir, cfg.hash(raw), s.now)
       case Err(_) => s.(requests := s.requests - {r})
       case Ok(identity) =>
         s.(requests := s.requests[r := Accepted(raw, identity, |s.lookups|)],
            lookups := s.lookups + [Lookup(raw, identity, s.now)]))
    case LookFails(r) => s.(requests := s.requests - {r})
    case Write(r) =>
      var Accepted(raw, identity, lookup) := s.requests[r];
      s.(items := WithEntry(cfg.ttl, s.items, cfg.hash(raw), identity, s.now),
         origins := s.origins[cfg.hash(raw) := Origin(lookup, s.now)],
         requests := s.requests - {r})
    case Clear => s.(items := map[])
  }

  ghost predicate IsRun(cfg: Config, s: System, steps: seq<Step>)
    requires Tracked(s)
    decreases |steps|
  {
    |steps| == 0 || (Enabled(cfg, s, steps[0]) && IsRun(cfg, Next(cfg, s, steps[0]), steps[1..]))
  }

  ghost function After(cfg: Config, s: System, steps: seq<Step>): (s': System)
    requires Tracked(s) && IsRun(cfg, s, steps)
    ensures Tracked(s')
    decreases |steps|
  {
    if |steps| == 0 then s else After(cfg, Next(cfg, s, steps[0]), steps[1..])
  }

  // ---- Invariant ----

  ghost predicate From(s: System, raw: string, identity: Identity, lookup: nat, latest: Time) {
    && lookup < |s.lookups|
    && s.lookups[lookup].raw == raw && s.lookups[lookup].identity == identity && s.lookups[lookup].at <= latest
  }

  ghost predicate ItemOk(cfg: Config, s: System, hashed: string)
    requires hashed in s.items && hashed in s.origins
  {
    var Origin(lookup, putAt) := s.origins[hashed];
    && cfg.ttl > 0
    && putAt <= s.now && s.items[hashed].expires == putAt + cfg.ttl
    && lookup < |s.lookups| && cfg.hash(s.lookups[lookup].raw) == hashed
    && From(s, s.lookups[lookup].raw, s.items[hashed].identity, lookup, putAt)
  }

  ghost predicate ItemsOk(cfg: Config, s: System) {
    Tracked(s) && forall hashed :: hashed in s.items ==> ItemOk(cfg, s, hashed)
  }

  ghost predicate RequestsOk(s: System) {
    forall r :: r in s.requests && s.requests[r].Accepted? ==>
      From(s, s.requests[r].raw, s.requests[r].identity, s.requests[r].lookup, s.now)
  }

  ghost predicate HitOk(cfg: Config, s: System, h: Hit) {
    From(s, h.raw, h.identity, h.lookup, h.putAt) && h.putAt <= h.at < h.putAt + cfg.ttl
  }

  ghost predicate HitsOk(cfg: Config, s: System) {
    forall i :: 0 <= i < |s.hits| ==> HitOk(cfg, s, s.hits[i])
  }

  ghost predicate Inv(cfg: Config, s: System) {
    ItemsOk(cfg, s) && RequestsOk(s) && HitsOk(cfg, s)
  }

  lemma LookupsGrow(cfg: Config, s: System, step: Step)
    requires Tracked(s) && Enabled(cfg, s, step)
    ensures var s' := Next(cfg, s, step);
            && |s'.lookups| >= |s.lookups| && (forall i :: 0 <= i < |s.lookups| ==> s'.lookups[i] == s.lookups[i])
            && s'.now >= s.now
  {
  }

  lemma NextKeepsItems(cfg: Config, s: System, step: Step)
    requires Inv(cfg, s) && Enabled(cfg, s, step)
    ensures ItemsOk(cfg, Next(cfg, s, step))
  {
    LookupsGrow(cfg, s, step);
    var s' := Next(cfg, s, step);
    forall hashed | hashed in s'.items
      ensures ItemOk(cfg, s', hashed)
    {
      assert hashed in s.items ==> ItemOk(cfg, s, hashed);
    }
  }

  lemma NextKeepsRequests(cfg: Config, s: System, step: Step)
    requires Inv(cfg, s) && Enabled(cfg, s, step)
    ensures RequestsOk(Next(cfg, s, step))
  {
    LookupsGrow(cfg, s, step);
  }

  lemma NextKeepsHits(cfg: Config, s: System, step: Step)
    requires Inv(cfg, s) && Enabled(cfg, s, step) && Injective(cfg.hash)
    ensures HitsOk(cfg, Next(cfg, s, step))
  {
    LookupsGrow(cfg, s, step);
    var s' := Next(cfg, s, step);
    forall i | 0 <= i < |s'.hits|
      ensures HitOk(cfg, s', s'.hits[i])
    {
      if i < |s.hits| {
        assert HitOk(cfg, s, s.hits[i]);
      } else {
        assert ItemOk(cfg, s, cfg.hash(step.raw));
      }
    }
  }

  lemma {:induction false} RunKeepsInv(cfg: Config, s: System, steps: seq<Step>)
    requires Inv(cfg, s) && Injective(cfg.hash) && IsRun(cfg, s, steps)
    ensures Inv(cfg, After(cfg, s, steps))
    decreases |steps|
  {
    if |steps| > 0 {
      NextKeepsItems(cfg, s, steps[0]);
      NextKeepsRequests(cfg, s, steps[0]);
      NextKeepsHits(cfg, s, steps[0]);
      RunKeepsInv(cfg, Next(cfg, s, steps[0]), steps[1..]);
    }
  }

  // ---- The accepted lookups are genuine ----

  // The directory at some moment of the run accepted the key.
  ghost predicate AcceptedDuring(cfg: Config, s: System, steps: seq<Step>, l: Lookup)
    requires Tracked(s) && IsRun(cfg, s, steps)
  {
    exists i :: 0 <= i <= |steps| && IsRun(cfg, s, steps[..i]) &&
      var at := After(cfg, s, steps[..i]);
      l.at == at.now && Accept(at.dir, cfg.hash(l.raw), l.at) == Ok(l.identity)
  }

  lemma AcceptedLater(cfg: Config, s: System, steps: seq<Step>, l: Lookup)
    requires Tracked(s) && |steps| > 0 && IsRun(cfg, s, steps)
    requires AcceptedDuring(cfg, Next(cfg, s, steps[0]), steps[1..], l)
    ensures AcceptedDuring(cfg, s, steps, l)
  {
    var s1 := Next(cfg, s, steps[0]);
    var rest := steps[1..];
    var i :| 0 <= i <= |rest| && IsRun(cfg, s1, rest[..i]) &&
             l.at == After(cfg, s1, rest[..i]).now
               && Accept(After(cfg, s1, rest[..i]).dir, cfg.hash(l.raw), l.at) == Ok(l.identity);
    assert steps[..i + 1][0] == steps[0] && steps[..i + 1][1..] == rest[..i];
    assert IsRun(cfg, s, steps[..i + 1]);
    assert After(cfg, s, steps[..i + 1]) == After(cfg, s1, rest[..i]);
  }

  lemma {:induction false} LookupsWereAccepted(cfg: Config, s: System, steps: seq<Step>, n: nat)
    requires Tracked(s) && IsRun(cfg, s, steps) && |s.lookups| <= n < |After(cfg, s, steps).lookups|
    ensures AcceptedDuring(cfg, s, steps, After(cfg, s, steps).lookups[n])
    decreases |steps|
  {
    var s1 := Next(cfg, s, steps[0]);
    if n >= |s1.lookups| {
      LookupsWereAccepted(cfg, s1, steps[1..], n);
      AcceptedLater(cfg, s, steps, After(cfg, s, steps).lookups[n]);
    } else {
      LookupsKept(cfg, s1, steps[1..]);
      assert steps[..0] == [];
      assert After(cfg, s, steps[..0]) == s;
    }
  }

  lemma {:induction false} LookupsKept(cfg: Config, s: System, steps: seq<Step>)
    requires Tracked(s) && IsRun(cfg, s, steps)
    ensures var s' := After(cfg, s, steps);
            |s'.lookups| >= |s.lookups| && forall i :: 0 <= i < |s.lookups| ==> s'.lookups[i] == s.lookups[i]
    decreases |steps|
  {
    if |steps| > 0 {
      LookupsGrow(cfg, s, steps[0]);
      LookupsKept(cfg, Next(cfg, s, steps[0]), steps[1..]);
    }
  }

  // Every accepted lookup: some directory of the run had, at the lookup's time, a row under the key's
  // hash, of a tenant not suspended and not expired, and the identity is the row's.
  lemma LookupsAreGenuine(cfg: Config, s: System, steps: seq<Step>, n: nat)
    requires Tracked(s) && IsRun(cfg, s, steps) && |s.lookups| <= n < |After(cfg, s, steps).lookups|
    ensures var l := After(cfg, s, steps).lookups[n];
            exists i :: 0 <= i <= |steps| && IsRun(cfg, s, steps[..i]) &&
              var at := After(cfg, s, steps[..i]);
              && l.at == at.now && cfg.hash(l.raw) in at.dir.keys
              && var row := at.dir.keys[cfg.hash(l.raw)];
                 && row.tenant !in at.dir.suspended && (row.expiresAt.Some? ==> row.expiresAt.value > l.at)
                 && l.identity.tenant == row.tenant && l.identity.keyId == row.id
                 && Some(l.identity.scopes) == row.scopes && l.identity.expiresAt == row.expiresAt
  {
    LookupsWereAccepted(cfg, s, steps, n);
    var l := After(cfg, s, steps).lookups[n];
    var i :| 0 <= i <= |steps| && IsRun(cfg, s, steps[..i]) && l.at == After(cfg, s, steps[..i]).now
             && Accept(After(cfg, s, steps[..i]).dir, cfg.hash(l.raw), l.at) == Ok(l.identity);
    assert cfg.hash(l.raw) in After(cfg, s, steps[..i]).dir.keys;
  }

  // And conversely: a lookup accepts the key whenever the directory has such a row.
  lemma LookAcceptsIff(cfg: Config, s: System, r: nat)
    requires Tracked(s) && Enabled(cfg, s, Look(r))
    ensures var s', raw := Next(cfg, s, Look(r)), s.requests[r].raw;
            && (|s'.lookups| == |s.lookups| + 1
                <==> && cfg.hash(raw) in s.dir.keys
                     && var row := s.dir.keys[cfg.hash(raw)];
                        && row.tenant !in s.dir.suspended && row.scopes.Some?
                        && (row.expiresAt.Some? ==> row.expiresAt.value > s.now))
            && (|s'.lookups| == |s.lookups| + 1 ==>
                  s'.lookups == s.lookups + [Lookup(raw, s'.lookups[|s.lookups|].identity, s.now)])
            && (|s'.lookups| != |s.lookups| + 1 ==> s'.lookups == s.lookups && s'.items == s.items)
  {
  }

  // An identity answered from the cache at time t was put there less than ttl before t, by a
  // lookup of the same raw key that the directory of its moment accepted.
  lemma HitsAreFresh(cfg: Config, now: Time, dir: Directory, steps: seq<Step>, i: nat)
    requires Injective(cfg.hash) && IsRun(cfg, Init(now, dir), steps) && i < |After(cfg, Init(now, dir), steps).hits|
    ensures var s := After(cfg, Init(now, dir), steps);
            var h := s.hits[i];
            && h.lookup < |s.lookups|
            && s.lookups[h.lookup].raw == h.raw && s.lookups[h.lookup].identity == h.identity
            && s.lookups[h.lookup].at <= h.putAt <= h.at < h.putAt + cfg.ttl
            && exists j :: 0 <= j <= |steps| && IsRun(cfg, Init(now, dir), steps[..j]) &&
                 var at := After(cfg, Init(now, dir), steps[..j]);
                 && s.lookups[h.lookup].at == at.now && cfg.hash(h.raw) in at.dir.keys
                 && var row := at.dir.keys[cfg.hash(h.raw)];
                    && row.tenant !in at.dir.suspended
                    && (row.expiresAt.Some? ==> row.expiresAt.value > s.lookups[h.lookup].at)
                    && h.identity.tenant == row.tenant && h.identity.keyId == row.id
                    && Some(h.identity.scopes) == row.scopes && h.identity.expiresAt == row.expiresAt
  {
    RunKeepsInv(cfg, Init(now, dir), steps);
    var s := After(cfg, Init(now, dir), steps);
    assert HitOk(cfg, s, s.hits[i]);
    LookupsAreGenuine(cfg, Init(now, dir), steps, s.hits[i].lookup);
  }

  // ---- Suspended tenants ----

  // Tenant u is suspended at s and stays so.
  ghost predicate StaysSuspended(s: System, steps: seq<Step>, u: Uuid) {
    u in s.dir.suspended && forall i :: 0 <= i < |steps| && steps[i].Change? ==> u in steps[i].dir.suspended
  }

  lemma {:induction false} NoLookupOfSuspended(cfg: Config, s: System, steps: seq<Step>, u: Uuid, n: nat)
    requires Tracked(s) && IsRun(cfg, s, steps) && StaysSuspended(s, steps, u)
    requires |s.lookups| <= n < |After(cfg, s, steps).lookups|
    ensures After(cfg, s, steps).lookups[n].identity.tenant != u
    decreases |steps|
  {
    var s1 := Next(cfg, s, steps[0]);
    assert StaysSuspended(s1, steps[1..], u);
    if n >= |s1.lookups| {
      NoLookupOfSuspended(cfg, s1, steps[1..], u, n);
    } else {
      LookupsKept(cfg, s1, steps[1..]);
    }
  }

  // While a tenant stays suspended no key of it is accepted, and any answer it still gets from the cache
  // comes from a lookup made before.
  lemma SuspendedIsRejected(cfg: Config, s: System, steps: seq<Step>, u: Uuid)
    requires Inv(cfg, s) && Injective(cfg.hash) && IsRun(cfg, s, steps)
    requires u in s.dir.suspended
    requires forall i :: 0 <= i < |steps| && steps[i].Change? ==> u in steps[i].dir.suspended
    ensures var s' := After(cfg, s, steps);
            && (forall n :: |s.lookups| <= n < |s'.lookups| ==> s'.lookups[n].identity.tenant != u)
            && (forall i :: |s.hits| <= i < |s'.hits| && s'.hits[i].identity.tenant == u ==>
                  s'.hits[i].lookup < |s.lookups|)
  {
    var s' := After(cfg, s, steps);
    forall n | |s.lookups| <= n < |s'.lookups|
      ensures s'.lookups[n].identity.tenant != u
    {
      NoLookupOfSuspended(cfg, s, steps, u, n);
    }
    RunKeepsInv(cfg, s, steps);
    forall i | |s.hits| <= i < |s'.hits| && s'.hits[i].identity.tenant == u
      ensures s'.hits[i].lookup < |s.lookups|
    {
      assert HitOk(cfg, s', s'.hits[i]);
    }
  }

  // What lookups before the n-th have left in the cache was put there by time t, and none of them is
  // still to be written.
  ghost predicate OlderWritten(s: System, n: nat, t: Time) {
    && Tracked(s) && n <= |s.lookups|
    && (forall hashed :: hashed in s.items && s.origins[hashed].lookup < n ==> s.origins[hashed].putAt <= t)
    && (forall r :: r in s.requests && s.requests[r].Accepted? ==> s.requests[r].lookup >= n)
  }

  lemma {:induction false} OlderWrittenLasts(cfg: Config, s: System, steps: seq<Step>, n: nat, t: Time, h: nat)
    requires OlderWritten(s, n, t) && IsRun(cfg, s, steps)
    requires h <= |s.hits| && forall i :: h <= i < |s.hits| && s.hits[i].lookup < n ==> s.hits[i].putAt <= t
    ensures forall i :: h <= i < |After(cfg, s, steps).hits| && After(cfg, s, steps).hits[i].lookup < n ==>
              After(cfg, s, steps).hits[i].putAt <= t
    decreases |steps|
  {
    if |steps| > 0 {
      OlderWrittenLasts(cfg, Next(cfg, s, steps[0]), steps[1..], n, t, h);
    }
  }

  // A suspension takes effect within ttl when no lookup is between its check and its cache write.
  lemma SuspensionTakesEffect(cfg: Config, s: System, steps: seq<Step>, u: Uuid, i: nat)
    requires Inv(cfg, s) && Injective(cfg.hash) && NoneUnderWay(s) && IsRun(cfg, s, steps)
    requires u in s.dir.suspended
    requires forall k :: 0 <= k < |steps| && steps[k].Change? ==> u in steps[k].dir.suspended
    requires |s.hits| <= i < |After(cfg, s, steps).hits|
    requires After(cfg, s, steps).hits[i].identity.tenant == u
    ensures After(cfg, s, steps).hits[i].at < s.now + cfg.ttl
  {
    SuspendedIsRejected(cfg, s, steps, u);
    RunKeepsInv(cfg, s, steps);
    assert HitOk(cfg, After(cfg, s, steps), After(cfg, s, steps).hits[i]);
    assert forall hashed :: hashed in s.items ==> ItemOk(cfg, s, hashed);
    OlderWrittenLasts(cfg, s, steps, |s.lookups|, s.now, |s.hits|);
  }

  // ---- InvalidateCache ----

  // No answer after s comes from a lookup made before s.
  ghost predicate Forgotten(s: System, s': System) {
    forall i :: |s.hits| <= i < |s'.hits| ==> s'.hits[i].lookup >= |s.lookups|
  }

  // Nothing in the cache or under way comes from a lookup before the n-th.
  ghost predicate NoneOlder(s: System, n: nat) {
    && Tracked(s)
    && (forall hashed :: hashed in s.items ==> s.origins[hashed].lookup >= n)
    && (forall r :: r in s.requests && s.requests[r].Accepted? ==> s.requests[r].lookup >= n)
    && n <= |s.lookups|
  }

  lemma {:induction false} NoneOlderLasts(cfg: Config, s: System, steps: seq<Step>, n: nat, h: nat)
    requires NoneOlder(s, n) && IsRun(cfg, s, steps)
    requires h <= |s.hits| && forall i :: h <= i < |s.hits| ==> s.hits[i].lookup >= n
    ensures forall i :: h <= i < |After(cfg, s, steps).hits| ==> After(cfg, s, steps).hits[i].lookup >= n
    decreases |steps|
  {
    if |steps| > 0 {
      NoneOlderLasts(cfg, Next(cfg, s, steps[0]), steps[1..], n, h);
    }
  }

  // No lookup is between its check and its cache write.
  predicate NoneUnderWay(s: System) {
    forall r :: r in s.requests ==> s.requests[r].Looking?
  }

  lemma ClearForgets(cfg: Config, s: System, steps: seq<Step>)
    requires Tracked(s) && NoneUnderWay(s) && IsRun(cfg, Next(cfg, s, Clear), steps)
    ensures Forgotten(s, After(cfg, Next(cfg, s, Clear), steps))
  {
    NoneOlderLasts(cfg, Next(cfg, s, Clear), steps, |s.lookups|, |s.hits|);
  }

  lemma StepThen(cfg: Config, s: System, first: Step, rest: seq<Step>)
    requires Tracked(s) && Enabled(cfg, s, first) && IsRun(cfg, Next(cfg, s, first), rest)
    ensures IsRun(cfg, s, [first] + rest) && After(cfg, s, [first] + rest) == After(cfg, Next(cfg, s, first), rest)
  {
    assert ([first] + rest)[1..] == rest;
  }

  // A lookup under way when the cache is cleared writes its older answer afterwards, and the next
  // request is answered from it, whatever the directory says by then.
  lemma UnderWaySurvivesClear(cfg: Config, s: System, r: nat)
    requires Inv(cfg, s) && cfg.ttl > 0 && r in s.requests && s.requests[r].Accepted? && s.requests[r].raw != ""
    ensures var steps := [Write(r), GetHit(s.requests[r].raw)];
            IsRun(cfg, Next(cfg, s, Clear), steps) && !Forgotten(s, After(cfg, Next(cfg, s, Clear), steps))
  {
    var s1 := Next(cfg, s, Clear);
    var hit := GetHit(s.requests[r].raw);
    var s2 := Next(cfg, s1, Write(r));
    var s3 := Next(cfg, s2, hit);
    StepThen(cfg, s2, hit, []);
    StepThen(cfg, s1, Write(r), [hit]);
    assert s3.hits[|s.hits|].lookup < |s.lookups|;
  }

  // Clearing the cache guarantees that later answers come from later lookups exactly when no
  // lookup is under way.
  lemma ClearIsCleanIff(cfg: Config, s: System)
    requires Inv(cfg, s) && cfg.ttl > 0 && forall r :: r in s.requests ==> s.requests[r].raw != ""
    ensures (forall steps :: IsRun(cfg, Next(cfg, s, Clear), steps) ==>
               Forgotten(s, After(cfg, Next(cfg, s, Clear), steps)))
            <==> NoneUnderWay(s)
  {
    if NoneUnderWay(s) {
      forall steps | IsRun(cfg, Next(cfg, s, Clear), steps)
        ensures Forgotten(s, After(cfg, Next(cfg, s, Clear), steps))
      {
        ClearForgets(cfg, s, steps);
      }
    } else {
      var r :| r in s.requests && !s.requests[r].Looking?;
      UnderWaySurvivesClear(cfg, s, r);
    }
  }
}
