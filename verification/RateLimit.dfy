// internal/adapter/http/middleware/ratelimit.go: the token bucket, the per-client store and its
// cleanup. Times are seconds, float64 is read as real.
module RateLimit {
  import opened Common

  datatype Limits = Limits(rps: real, burst: int)

  datatype Bucket = Bucket(tokens: real, lastRefill: real)

  function NewBucket(lim: Limits, now: real): Bucket {
    Bucket(lim.burst as real, now)
  }

  // The tokens allow() decides on.
  function Refilled(lim: Limits, b: Bucket, now: real): real {
    var tokens := b.tokens + (now - b.lastRefill) * lim.rps;
    if tokens > lim.burst as real then lim.burst as real else tokens
  }

  function Admits(lim: Limits, b: Bucket, now: real): bool {
    Refilled(lim, b, now) >= 1.0
  }

  function AfterRequest(lim: Limits, b: Bucket, now: real): Bucket {
    Bucket(if Admits(lim, b, now) then Refilled(lim, b, now) - 1.0 else Refilled(lim, b, now), now)
  }

  lemma EqualFactors(a: real, b: real, c: real, d: real)
    requires a == c && b == d
    ensures a * b == c * d
  {
  }

  class TokenBucket {
    var tokens: real
    const maxTokens: real
    const refillRate: real
    var lastRefill: real

    constructor (lim: Limits, now: real)
      ensures Runs(lim) && State() == NewBucket(lim, now)
    {
      tokens, maxTokens := lim.burst as real, lim.burst as real;
      refillRate, lastRefill := lim.rps, now;
    }

    predicate Runs(lim: Limits) {
      maxTokens == lim.burst as real && refillRate == lim.rps
    }

    function State(): Bucket
      reads this
    {
      Bucket(tokens, lastRefill)
    }

    method Allow(ghost lim: Limits, now: real) returns (ok: bool)
      requires Runs(lim)
      modifies this
      ensures ok == Admits(lim, old(State()), now)
      ensures State() == AfterRequest(lim, old(State()), now)
    {
      var elapsed := now - lastRefill;
      EqualFactors(elapsed, refillRate, now - lastRefill, lim.rps);
      tokens := tokens + elapsed * refillRate;
      if tokens > maxTokens {
        tokens := maxTokens;
      }
      assert tokens == Refilled(lim, old(State()), now);
      lastRefill := now;
      if tokens < 1.0 {
        return false;
      }
      tokens := tokens - 1.0;
      return true;
    }
  }

  // ---- One bucket against its whole history ----

  // A bucket created at t0, after requests at the times ts.
  function StateAfter(lim: Limits, t0: real, ts: seq<real>): Bucket {
    if |ts| == 0 then NewBucket(lim, t0)
    else AfterRequest(lim, StateAfter(lim, t0, ts[..|ts| - 1]), ts[|ts| - 1])
  }

  function TokensAt(lim: Limits, t0: real, ts: seq<real>, j: nat): real
    requires j < |ts|
  {
    Refilled(lim, StateAfter(lim, t0, ts[..j]), ts[j])
  }

  predicate Admitted(lim: Limits, t0: real, ts: seq<real>, j: nat)
    requires j < |ts|
  {
    TokensAt(lim, t0, ts, j) >= 1.0
  }

  function Decisions(lim: Limits, t0: real, ts: seq<real>): seq<bool> {
    seq(|ts|, j requires 0 <= j < |ts| => Admitted(lim, t0, ts, j))
  }

  // How many of the requests i .. j-1 were let through.
  function Count(d: seq<bool>, i: nat, j: nat): nat
    requires j <= |d|
  {
    if j <= i then 0 else Count(d, i, j - 1) + if d[j - 1] then 1 else 0
  }

  // Windows ending at request j: number 0 opens when the bucket is created, number i + 1 at
  // request i.
  function Opens(t0: real, ts: seq<real>, k: nat): real
    requires k <= |ts|
  {
    if k == 0 then t0 else ts[k - 1]
  }

  function CountInWindow(d: seq<bool>, k: nat, j: nat): nat
    requires j <= |d|
  {
    Count(d, if k == 0 then 0 else k - 1, j)
  }

  // burst + rate * length
  function Capacity(lim: Limits, from: real, to: real): real {
    lim.burst as real + lim.rps * (to - from)
  }

  // What window k still allows when request j arrives.
  function Allowance(lim: Limits, t0: real, ts: seq<real>, d: seq<bool>, k: nat, j: nat): real
    requires k <= j + 1 && j < |ts| == |d|
  {
    Capacity(lim, Opens(t0, ts, k), ts[j]) - CountInWindow(d, k, j) as real
  }

  lemma CapacityGrows(lim: Limits, a: real, b: real, c: real)
    ensures Capacity(lim, a, c) == Capacity(lim, a, b) + (c - b) * lim.rps
    ensures lim.rps >= 0.0 && b <= c ==> Capacity(lim, a, b) <= Capacity(lim, a, c)
  {
    if lim.rps >= 0.0 && b <= c {
      assert (c - b) * lim.rps >= 0.0;
    }
  }

  lemma NextTokens(lim: Limits, t0: real, ts: seq<real>, j: nat)
    requires 0 < j < |ts|
    ensures TokensAt(lim, t0, ts, j) ==
            var spent := TokensAt(lim, t0, ts, j - 1) - if Admitted(lim, t0, ts, j - 1) then 1.0 else 0.0;
            var refilled := spent + (ts[j] - ts[j - 1]) * lim.rps;
            if refilled > lim.burst as real then lim.burst as real else refilled
  {
    assert ts[..j][..j - 1] == ts[..j - 1];
  }

  lemma NextAllowance(lim: Limits, t0: real, ts: seq<real>, d: seq<bool>, k: nat, j: nat)
    requires 0 < j < |ts| == |d| && k <= j
    ensures Allowance(lim, t0, ts, d, k, j) ==
            Allowance(lim, t0, ts, d, k, j - 1) + (ts[j] - ts[j - 1]) * lim.rps - if d[j - 1] then 1.0 else 0.0
  {
    CapacityGrows(lim, Opens(t0, ts, k), ts[j - 1], ts[j]);
  }

  ghost predicate IsMinimum(x: real, values: int -> real, n: int) {
    && (forall k :: 0 <= k < n ==> x <= values(k))
    && (exists k :: 0 <= k < n && x == values(k))
  }

  ghost function Allowances(lim: Limits, t0: real, ts: seq<real>, j: nat): int -> real
    requires j < |ts|
  {
    k => if 0 <= k <= j + 1 then Allowance(lim, t0, ts, Decisions(lim, t0, ts), k, j) else 0.0
  }

  lemma MinimumStep(x: real, before: int -> real, n: nat, change: real, cap: real, y: real, after: int -> real)
    requires IsMinimum(x, before, n)
    requires forall k :: 0 <= k < n ==> after(k) == before(k) + change
    requires after(n) == cap
    requires y == if x + change > cap then cap else x + change
    ensures IsMinimum(y, after, n + 1)
  {
    var k :| 0 <= k < n && x == before(k);
    assert after(k) == x + change;
  }

  lemma AllowanceChanges(lim: Limits, t0: real, ts: seq<real>, j: nat)
    requires 0 < j < |ts|
    ensures var change := (ts[j] - ts[j - 1]) * lim.rps - if Decisions(lim, t0, ts)[j - 1] then 1.0 else 0.0;
            forall k :: 0 <= k < j + 1 ==> Allowances(lim, t0, ts, j)(k) == Allowances(lim, t0, ts, j - 1)(k) + change
  {
    forall k | 0 <= k < j + 1 {
      NextAllowance(lim, t0, ts, Decisions(lim, t0, ts), k, j);
    }
  }

  lemma LatestWindow(lim: Limits, t0: real, ts: seq<real>, j: nat)
    requires j < |ts|
    ensures Allowances(lim, t0, ts, j)(j + 1) == lim.burst as real
  {
    assert lim.rps * (ts[j] - ts[j]) == 0.0;
  }

  lemma FirstTokens(lim: Limits, t0: real, ts: seq<real>)
    requires |ts| > 0
    ensures IsMinimum(TokensAt(lim, t0, ts, 0), Allowances(lim, t0, ts, 0), 2)
  {
    assert ts[..0] == [];
    var allowances := Allowances(lim, t0, ts, 0);
    LatestWindow(lim, t0, ts, 0);
    assert allowances(0) == lim.burst as real + (ts[0] - t0) * lim.rps;
    assert TokensAt(lim, t0, ts, 0) == allowances(0) || TokensAt(lim, t0, ts, 0) == allowances(1);
  }

  // The one counter equals the least allowance over every window of the history.
  lemma {:induction false} TokensAreLeastAllowance(lim: Limits, t0: real, ts: seq<real>, j: nat)
    requires j < |ts|
    ensures IsMinimum(TokensAt(lim, t0, ts, j), Allowances(lim, t0, ts, j), j + 2)
  {
    if j == 0 {
      FirstTokens(lim, t0, ts);
    } else {
      TokensAreLeastAllowance(lim, t0, ts, j - 1);
      NextTokens(lim, t0, ts, j);
      AllowanceChanges(lim, t0, ts, j);
      LatestWindow(lim, t0, ts, j);
      var change := (ts[j] - ts[j - 1]) * lim.rps - if Decisions(lim, t0, ts)[j - 1] then 1.0 else 0.0;
      MinimumStep(TokensAt(lim, t0, ts, j - 1), Allowances(lim, t0, ts, j - 1), j + 1, change, lim.burst as real,
                  TokensAt(lim, t0, ts, j), Allowances(lim, t0, ts, j));
    }
  }

  lemma PlusOne(n: int)
    ensures (n + 1) as real == n as real + 1.0
  {
  }

  // One more request in window k would make it more than burst + rate * length.
  predicate Exceeds(lim: Limits, t0: real, ts: seq<real>, d: seq<bool>, k: nat, j: nat)
    requires k <= j + 1 && j < |ts| == |d|
  {
    CountInWindow(d, k, j) as real + 1.0 > Capacity(lim, Opens(t0, ts, k), ts[j])
  }

  // A request is let through iff no window ending at it would exceed burst + rate * length.
  lemma AdmittedIffNoWindowExceeds(lim: Limits, t0: real, ts: seq<real>, j: nat)
    requires j < |ts|
    ensures Decisions(lim, t0, ts)[j] <==>
            forall k: nat :: k <= j + 1 ==> !Exceeds(lim, t0, ts, Decisions(lim, t0, ts), k, j)
  {
    var d := Decisions(lim, t0, ts);
    var allowances := Allowances(lim, t0, ts, j);
    TokensAreLeastAllowance(lim, t0, ts, j);
    forall k: nat | k <= j + 1
      ensures Exceeds(lim, t0, ts, d, k, j) <==> allowances(k) < 1.0
    {
    }
  }

  predicate NonDecreasing(ts: seq<real>) {
    forall i, j :: 0 <= i < j < |ts| ==> ts[i] <= ts[j]
  }

  // Over any stretch of a run of the clock, at most burst + rate * length requests get through.
  lemma {:induction false} WindowBound(lim: Limits, t0: real, ts: seq<real>, i: nat, j: nat)
    requires i <= j < |ts| && NonDecreasing(ts) && lim.rps >= 0.0 && lim.burst >= 0
    ensures Count(Decisions(lim, t0, ts), i, j + 1) as real <= Capacity(lim, ts[i], ts[j])
  {
    var d := Decisions(lim, t0, ts);
    if d[j] {
      AdmittedIffNoWindowExceeds(lim, t0, ts, j);
      LastAdmitted(lim, t0, ts, d, i, j);
    } else if i < j {
      WindowBound(lim, t0, ts, i, j - 1);
      CapacityGrows(lim, ts[i], ts[j - 1], ts[j]);
    } else {
      assert Capacity(lim, ts[i], ts[i]) == lim.burst as real;
    }
  }

  lemma LastAdmitted(lim: Limits, t0: real, ts: seq<real>, d: seq<bool>, i: nat, j: nat)
    requires i <= j < |ts| == |d| && d[j] && !Exceeds(lim, t0, ts, d, i + 1, j)
    ensures Count(d, i, j + 1) as real <= Capacity(lim, ts[i], ts[j])
  {
    assert Count(d, i, j + 1) == Count(d, i, j) + 1;
  }

  // ---- The store ----

  type Buckets = map<string, Bucket>

  const IDLE: real := 600.0

  function BucketOf(lim: Limits, bs: Buckets, ip: string, now: real): Bucket {
    if ip in bs then bs[ip] else NewBucket(lim, now)
  }

  function AfterHit(lim: Limits, bs: Buckets, ip: string, now: real): Buckets {
    bs[ip := AfterRequest(lim, BucketOf(lim, bs, ip, now), now)]
  }

  predicate IdleTooLong(b: Bucket, now: real) {
    now - b.lastRefill > IDLE
  }

  function IdleIps(bs: Buckets, now: real): set<string> {
    set ip | ip in bs && IdleTooLong(bs[ip], now)
  }

  class RateLimiterStore {
    var buckets: map<string, TokenBucket>
    const lim: Limits

    ghost predicate Valid()
      reads this, buckets.Values
    {
      && (forall ip :: ip in buckets ==> buckets[ip].Runs(lim))
      && (forall a, b :: a in buckets && b in buckets && a != b ==> buckets[a] != buckets[b])
    }

    ghost function Contents(): Buckets
      reads this, buckets.Values
    {
      map ip | ip in buckets :: buckets[ip].State()
    }

    constructor (lim: Limits)
      ensures Valid() && Contents() == map[] && this.lim == lim
    {
      this.lim := lim;
      this.buckets := map[];
    }

    method GetBucket(ip: string, now: real) returns (b: TokenBucket)
      requires Valid()
      modifies this`buckets
      ensures Valid() && ip in buckets && buckets[ip] == b
      ensures forall other :: other in buckets <==> other in old(buckets) || other == ip
      ensures forall other :: other in old(buckets) ==> buckets[other] == old(buckets[other])
      ensures ip !in old(buckets) ==> fresh(b) && b.State() == NewBucket(lim, now)
    {
      if ip in buckets {
        return buckets[ip];
      }
      b := new TokenBucket(lim, now);
      buckets := buckets[ip := b];
    }

    // What the middleware does with one request of client ip.
    method Request(ip: string, now: real) returns (ok: bool)
      requires Valid()
      modifies this`buckets, buckets.Values
      ensures Valid() && forall b :: b in buckets.Values ==> b in old(buckets.Values) || fresh(b)
      ensures ok == Admits(lim, BucketOf(lim, old(Contents()), ip, now), now)
      ensures Contents() == AfterHit(lim, old(Contents()), ip, now)
    {
      var b := GetBucket(ip, now);
      ok := b.Allow(lim, now);
    }

    method Cleanup(now: real)
      requires Valid()
      modifies this`buckets
      ensures Valid() && buckets.Values <= old(buckets.Values)
      ensures Contents() == old(Contents()) - IdleIps(old(Contents()), now)
      ensures forall ip :: ip in Contents() <==> ip in old(Contents()) && now - old(Contents())[ip].lastRefill <= 600.0
    {
      var ips := buckets.Keys;
      ghost var all := buckets;
      while ips != {}
        invariant ips <= all.Keys
        invariant forall ip :: ip in buckets <==> ip in all && (ip in ips || !IdleTooLong(all[ip].State(), now))
        invariant forall ip :: ip in buckets ==> buckets[ip] == all[ip]
        decreases |ips|
      {
        var ip :| ip in ips;
        var b := buckets[ip];
        if now - b.lastRefill > IDLE {
          buckets := buckets - {ip};
        }
        ips := ips - {ip};
      }
    }
  }

  // ---- Many clients ----

  datatype Arrival = Arrival(ip: string, now: real)

  function StoreAfter(lim: Limits, arrivals: seq<Arrival>): Buckets {
    if |arrivals| == 0 then map[]
    else
      var last := arrivals[|arrivals| - 1];
      AfterHit(lim, StoreAfter(lim, arrivals[..|arrivals| - 1]), last.ip, last.now)
  }

  function TimesOf(arrivals: seq<Arrival>, ip: string): seq<real> {
    if |arrivals| == 0 then []
    else
      var last := arrivals[|arrivals| - 1];
      TimesOf(arrivals[..|arrivals| - 1], ip) + if last.ip == ip then [last.now] else []
  }

  lemma {:induction false} BucketIsOwnHistory(lim: Limits, arrivals: seq<Arrival>, ip: string)
    ensures var ts := TimesOf(arrivals, ip);
            && (ip in StoreAfter(lim, arrivals) <==> |ts| > 0)
            && (|ts| > 0 ==> StoreAfter(lim, arrivals)[ip] == StateAfter(lim, ts[0], ts))
  {
    if |arrivals| > 0 {
      var before := arrivals[..|arrivals| - 1];
      var ts := TimesOf(before, ip);
      BucketIsOwnHistory(lim, before, ip);
      var last := arrivals[|arrivals| - 1];
      if last.ip == ip {
        var all := ts + [last.now];
        assert all[..|ts|] == ts;
        assert StateAfter(lim, all[0], all) == AfterRequest(lim, StateAfter(lim, all[0], ts), last.now);
      } else {
        assert TimesOf(arrivals, ip) == ts;
      }
    }
  }

  ghost predicate NoWindowExceeds(lim: Limits, t0: real, ts: seq<real>, j: nat)
    requires j < |ts|
  {
    forall k: nat :: k <= j + 1 ==> !Exceeds(lim, t0, ts, Decisions(lim, t0, ts), k, j)
  }

  // However clients interleave, the answer to a request depends on that client's requests alone:
  // it is let through iff no window of its own history would exceed burst + rate * length.
  lemma EachClientAlone(lim: Limits, arrivals: seq<Arrival>, ip: string, now: real)
    ensures var ts := TimesOf(arrivals, ip) + [now];
            Admits(lim, BucketOf(lim, StoreAfter(lim, arrivals), ip, now), now) <==>
            NoWindowExceeds(lim, ts[0], ts, |ts| - 1)
  {
    var before := TimesOf(arrivals, ip);
    var ts := before + [now];
    BucketIsOwnHistory(lim, arrivals, ip);
    AdmittedIffNoWindowExceeds(lim, ts[0], ts, |ts| - 1);
    assert ts[..|before|] == before;
    assert Decisions(lim, ts[0], ts)[|before|] == Admitted(lim, ts[0], ts, |before|);
  }
}
