// When is the limiter's cleanup invisible to clients?
module Eviction {
  import opened Common
  import opened RateLimit

  // Evict stands for any part of any cleanup pass: it may remove any of the named buckets that
  // have been idle for more than ten minutes.
  datatype Event =
    | Hit(ip: string, now: real)
    | Evict(ips: set<string>, now: real)

  function AfterEvent(lim: Limits, bs: Buckets, e: Event, evicting: bool): Buckets {
    match e
    case Hit(ip, now) => AfterHit(lim, bs, ip, now)
    case Evict(ips, now) => if evicting then bs - (ips * IdleIps(bs, now)) else bs
  }

  // The decisions given to clients, in order.
  function Answers(lim: Limits, bs: Buckets, events: seq<Event>, evicting: bool): seq<bool>
    decreases |events|
  {
    if |events| == 0 then []
    else
      (if events[0].Hit? then [Admits(lim, BucketOf(lim, bs, events[0].ip, events[0].now), events[0].now)] else [])
      + Answers(lim, AfterEvent(lim, bs, events[0], evicting), events[1..], evicting)
  }

  predicate Ordered(events: seq<Event>, from: real)
    decreases |events|
  {
    |events| == 0 || (from <= events[0].now && Ordered(events[1..], events[0].now))
  }

  // Whatever the traffic and whatever is evicted, clients get the answers they would get from a
  // store that never evicts.
  ghost predicate Unobservable(lim: Limits) {
    forall events, start :: Ordered(events, start) ==>
      Answers(lim, map[], events, true) == Answers(lim, map[], events, false)
  }

  // ---- It is, when an idle bucket has refilled ----

  // A bucket's tokens never go below zero (or below a negative burst).
  ghost predicate Floored(lim: Limits, bs: Buckets) {
    forall ip :: ip in bs ==> bs[ip].tokens >= 0.0 || bs[ip].tokens >= lim.burst as real
  }

  // The evicting store holds some of the other's buckets, unchanged; the missing ones are idle.
  ghost predicate Lags(evicting: Buckets, keeping: Buckets, now: real) {
    && evicting.Keys <= keeping.Keys
    && (forall ip :: ip in evicting ==> evicting[ip] == keeping[ip])
    && (forall ip :: ip in keeping ==> keeping[ip].lastRefill <= now)
    && (forall ip :: ip in keeping && ip !in evicting ==> IdleTooLong(keeping[ip], now))
  }

  lemma IdleBucketIsFull(lim: Limits, b: Bucket, now: real)
    requires lim.rps >= 0.0 && lim.rps * IDLE >= lim.burst as real
    requires b.tokens >= 0.0 || b.tokens >= lim.burst as real
    requires IdleTooLong(b, now)
    ensures Refilled(lim, b, now) == Refilled(lim, NewBucket(lim, now), now)
    ensures AfterRequest(lim, b, now) == AfterRequest(lim, NewBucket(lim, now), now)
  {
    var elapsed := now - b.lastRefill;
    NonNegativeProduct(elapsed - IDLE, lim.rps);
    NonNegativeProduct(elapsed, lim.rps);
    assert elapsed * lim.rps == (elapsed - IDLE) * lim.rps + lim.rps * IDLE;
    assert b.tokens + elapsed * lim.rps >= lim.burst as real;
    NoTimeNoTokens(lim, NewBucket(lim, now));
    assert Refilled(lim, b, now) == lim.burst as real;
    assert Refilled(lim, NewBucket(lim, now), now) == lim.burst as real;
  }

  lemma NonNegativeProduct(x: real, y: real)
    requires x >= 0.0 && y >= 0.0
    ensures x * y >= 0.0
  {
  }

  lemma NoTimeNoTokens(lim: Limits, b: Bucket)
    ensures Refilled(lim, b, b.lastRefill) == if b.tokens > lim.burst as real then lim.burst as real else b.tokens
  {
    assert (b.lastRefill - b.lastRefill) * lim.rps == 0.0;
  }

  lemma {:induction false} SameAnswers(lim: Limits, evicting: Buckets, keeping: Buckets, events: seq<Event>, now: real)
    requires lim.rps >= 0.0 && lim.rps * IDLE >= lim.burst as real
    requires Lags(evicting, keeping, now) && Floored(lim, keeping) && Ordered(events, now)
    ensures Answers(lim, evicting, events, true) == Answers(lim, keeping, events, false)
    decreases |events|
  {
    if |events| > 0 {
      var e := events[0];
      if e.Hit? {
        HitAgrees(lim, evicting, keeping, e.ip, now, e.now);
      }
      SameAnswers(lim, AfterEvent(lim, evicting, e, true), AfterEvent(lim, keeping, e, false), events[1..], e.now);
    }
  }

  lemma StaysFloored(lim: Limits, b: Bucket, now: real)
    requires lim.rps >= 0.0 && b.lastRefill <= now
    requires b.tokens >= 0.0 || b.tokens >= lim.burst as real
    ensures var b' := AfterRequest(lim, b, now); b'.tokens >= 0.0 || b'.tokens >= lim.burst as real
  {
    NonNegativeProduct(now - b.lastRefill, lim.rps);
    assert Refilled(lim, b, now) >= b.tokens || Refilled(lim, b, now) == lim.burst as real;
  }

  lemma HitAgrees(lim: Limits, evicting: Buckets, keeping: Buckets, ip: string, before: real, now: real)
    requires lim.rps >= 0.0 && lim.rps * IDLE >= lim.burst as real && before <= now
    requires Lags(evicting, keeping, before) && Floored(lim, keeping)
    ensures Admits(lim, BucketOf(lim, evicting, ip, now), now) == Admits(lim, BucketOf(lim, keeping, ip, now), now)
    ensures Lags(AfterHit(lim, evicting, ip, now), AfterHit(lim, keeping, ip, now), now)
    ensures Floored(lim, AfterHit(lim, keeping, ip, now))
  {
    var mine, its := BucketOf(lim, evicting, ip, now), BucketOf(lim, keeping, ip, now);
    assert AfterRequest(lim, mine, now) == AfterRequest(lim, its, now)
      && Refilled(lim, mine, now) == Refilled(lim, its, now) by {
      if ip in keeping && ip !in evicting {
        IdleBucketIsFull(lim, keeping[ip], now);
      }
    }
    StaysFloored(lim, its, now);
    SetBoth(evicting, keeping, ip, AfterRequest(lim, its, now), before, now);
  }

  lemma SetBoth(evicting: Buckets, keeping: Buckets, ip: string, b: Bucket, before: real, now: real)
    requires Lags(evicting, keeping, before) && before <= now && b.lastRefill == now
    ensures Lags(evicting[ip := b], keeping[ip := b], now)
  {
  }

  // With a burst below one, nothing is ever let through, evicted or not.
  lemma {:induction false} NothingAdmitted(lim: Limits, bs: Buckets, events: seq<Event>, evicting: bool)
    requires lim.burst < 1
    ensures forall i :: 0 <= i < |Answers(lim, bs, events, evicting)| ==> !Answers(lim, bs, events, evicting)[i]
    ensures |Answers(lim, bs, events, evicting)| == Hits(events)
    decreases |events|
  {
    if |events| > 0 {
      NothingAdmitted(lim, AfterEvent(lim, bs, events[0], evicting), events[1..], evicting);
    }
  }

  function Hits(events: seq<Event>): nat {
    if |events| == 0 then 0 else (if events[0].Hit? then 1 else 0) + Hits(events[1..])
  }

  lemma RefilledMeansUnobservable(lim: Limits)
    requires lim.rps * IDLE >= lim.burst as real
    ensures Unobservable(lim)
  {
    forall events, start | Ordered(events, start)
      ensures Answers(lim, map[], events, true) == Answers(lim, map[], events, false)
    {
      if lim.burst < 1 {
        NothingAdmitted(lim, map[], events, true);
        NothingAdmitted(lim, map[], events, false);
      } else {
        assert lim.rps >= 0.0;
        SameAnswers(lim, map[], map[], events, start);
      }
    }
  }

  // ---- It is not, when it has not: drain, wait just over ten minutes, burst again ----

  function Volley(ip: string, now: real, n: nat): seq<Event> {
    if n == 0 then [] else [Hit(ip, now)] + Volley(ip, now, n - 1)
  }

  lemma {:induction false} VolleyIsOrdered(ip: string, now: real, n: nat, from: real, rest: seq<Event>)
    requires from <= now && Ordered(rest, now)
    ensures Ordered(Volley(ip, now, n) + rest, from)
  {
    if n == 0 {
      assert Volley(ip, now, n) + rest == rest;
    } else {
      VolleyIsOrdered(ip, now, n - 1, now, rest);
      assert (Volley(ip, now, n) + rest)[1..] == Volley(ip, now, n - 1) + rest;
    }
  }

  function Level(lim: Limits, bs: Buckets, ip: string, now: real): real {
    Refilled(lim, BucketOf(lim, bs, ip, now), now)
  }

  lemma LevelAfterHit(lim: Limits, bs: Buckets, ip: string, now: real)
    ensures Level(lim, AfterHit(lim, bs, ip, now), ip, now)
            == Level(lim, bs, ip, now) - if Level(lim, bs, ip, now) >= 1.0 then 1.0 else 0.0
  {
    var b := AfterHit(lim, bs, ip, now)[ip];
    assert b == AfterRequest(lim, BucketOf(lim, bs, ip, now), now) && b.lastRefill == now;
    NoTimeNoTokens(lim, b);
  }

  lemma VolleyUnfolds(lim: Limits, bs: Buckets, ip: string, now: real, n: nat, rest: seq<Event>, evicting: bool)
    requires n > 0
    ensures Answers(lim, bs, Volley(ip, now, n) + rest, evicting)
            == [Level(lim, bs, ip, now) >= 1.0] + Answers(lim, AfterHit(lim, bs, ip, now),
                                                          Volley(ip, now, n - 1) + rest, evicting)
  {
    assert (Volley(ip, now, n) + rest)[1..] == Volley(ip, now, n - 1) + rest;
  }

  // n requests in one instant are all let through iff there are n tokens.
  lemma {:induction false} VolleyNeedsTokens(lim: Limits, bs: Buckets, ip: string, now: real, n: nat, evicting: bool)
    ensures var answers := Answers(lim, bs, Volley(ip, now, n) + [], evicting);
            && |answers| == n
            && (n > 0 ==> ((forall i :: 0 <= i < n ==> answers[i]) <==> Level(lim, bs, ip, now) >= n as real))
    decreases n
  {
    if n > 0 {
      var rest := Answers(lim, AfterHit(lim, bs, ip, now), Volley(ip, now, n - 1) + [], evicting);
      VolleyUnfolds(lim, bs, ip, now, n, [], evicting);
      VolleyNeedsTokens(lim, AfterHit(lim, bs, ip, now), ip, now, n - 1, evicting);
      LevelAfterHit(lim, bs, ip, now);
      PlusOne(n - 1);
      AllOfCons(Level(lim, bs, ip, now) >= 1.0, rest);
    }
  }

  lemma AllOfCons(first: bool, rest: seq<bool>)
    ensures (forall i :: 0 <= i < |rest| + 1 ==> ([first] + rest)[i])
            <==> first && forall i :: 0 <= i < |rest| ==> rest[i]
  {
    forall i | 0 <= i < |rest|
      ensures ([first] + rest)[i + 1] == rest[i]
    {
    }
    assert ([first] + rest)[0] == first;
  }

  // A bucket holding n tokens, drained by n requests.
  lemma {:induction false} VolleyDrains(lim: Limits, bs: Buckets, ip: string, now: real, n: nat, rest: seq<Event>,
                                        evicting: bool)
    requires Level(lim, bs, ip, now) == n as real && n > 0
    ensures var answers := Answers(lim, bs, Volley(ip, now, n) + rest, evicting);
            |answers| >= n && answers[n..] == Answers(lim, bs[ip := Bucket(0.0, now)], rest, evicting)
    decreases n
  {
    var bs1 := AfterHit(lim, bs, ip, now);
    VolleyUnfolds(lim, bs, ip, now, n, rest, evicting);
    LevelAfterHit(lim, bs, ip, now);
    PlusOne(n - 1);
    if n > 1 {
      VolleyDrains(lim, bs1, ip, now, n - 1, rest, evicting);
      assert bs1[ip := Bucket(0.0, now)] == bs[ip := Bucket(0.0, now)];
    } else {
      assert Volley(ip, now, 0) + rest == rest;
      assert bs1 == bs[ip := Bucket(0.0, now)];
    }
  }

  // More than ten minutes, yet too short to refill the bucket.
  function Pause(lim: Limits): (d: real)
    requires lim.rps * IDLE < lim.burst as real && lim.burst >= 1
    ensures d > IDLE && d * lim.rps < lim.burst as real
  {
    if lim.rps <= 0.0 then IDLE + 1.0
    else
      var slack := (lim.burst as real - lim.rps * IDLE) / (2.0 * lim.rps);
      assert slack * lim.rps == (lim.burst as real - lim.rps * IDLE) / 2.0;
      IDLE + slack
  }

  // After the pause, the evicting store answers a full volley, the other cannot.
  lemma SecondVolleyDiffers(lim: Limits, ip: string)
    requires lim.burst >= 1 && lim.rps * IDLE < lim.burst as real
    ensures var drained, d := map[ip := Bucket(0.0, 0.0)], Pause(lim);
            var second := [Evict({ip}, d)] + (Volley(ip, d, lim.burst) + []);
            Answers(lim, drained, second, true) != Answers(lim, drained, second, false)
  {
    var drained, d, n := map[ip := Bucket(0.0, 0.0)], Pause(lim), lim.burst;
    var last := Volley(ip, d, n) + [];
    var second := [Evict({ip}, d)] + last;
    assert second[1..] == last;
    assert ip in IdleIps(drained, d);
    assert drained - ({ip} * IdleIps(drained, d)) == map[];
    VolleyNeedsTokens(lim, map[], ip, d, n, true);
    VolleyNeedsTokens(lim, drained, ip, d, n, false);
    NewBucketIsFull(lim, ip, d);
    var full, partial := Answers(lim, map[], last, true), Answers(lim, drained, last, false);
    assert (d - 0.0) * lim.rps == d * lim.rps && Level(lim, drained, ip, d) < n as real;
    var i :| 0 <= i < n && !partial[i];
    assert full[i];
    assert Answers(lim, drained, second, true) == [] + full == full;
    assert Answers(lim, drained, second, false) == [] + partial == partial;
    assert full != partial;
  }

  lemma NewBucketIsFull(lim: Limits, ip: string, now: real)
    ensures Level(lim, map[], ip, now) == lim.burst as real
  {
    assert (now - now) * lim.rps == 0.0;
  }

  lemma UnrefilledMeansObservable(lim: Limits)
    requires lim.burst >= 1 && lim.rps * IDLE < lim.burst as real
    ensures !Unobservable(lim)
  {
    var n, d, ip := lim.burst, Pause(lim), "192.0.2.1:443";
    var last := Volley(ip, d, n) + [];
    var second := [Evict({ip}, d)] + last;
    var events := Volley(ip, 0.0, n) + second;
    NewBucketIsFull(lim, ip, 0.0);
    VolleyDrains(lim, map[], ip, 0.0, n, second, true);
    VolleyDrains(lim, map[], ip, 0.0, n, second, false);
    SecondVolleyDiffers(lim, ip);
    assert Answers(lim, map[], events, true)[n..] != Answers(lim, map[], events, false)[n..];
    assert Ordered(events, 0.0) by {
      VolleyIsOrdered(ip, d, n, d, []);
      assert second[1..] == last;
      VolleyIsOrdered(ip, 0.0, n, 0.0, second);
    }
  }

  // Cleanup changes some client's answers, for some traffic, exactly when ten minutes do not
  // refill the whole burst.
  lemma WhenEvictionIsUnobservable(lim: Limits)
    ensures Unobservable(lim) <==> lim.burst < 1 || lim.rps * 600.0 >= lim.burst as real
  {
    if lim.rps * IDLE >= lim.burst as real {
      RefilledMeansUnobservable(lim);
    } else if lim.burst >= 1 {
      UnrefilledMeansObservable(lim);
    } else {
      forall events, start | Ordered(events, start)
        ensures Answers(lim, map[], events, true) == Answers(lim, map[], events, false)
      {
        NothingAdmitted(lim, map[], events, true);
        NothingAdmitted(lim, map[], events, false);
      }
    }
  }
}
