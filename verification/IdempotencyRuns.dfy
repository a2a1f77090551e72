// Idempotent requests of any number of clients, interleaved call by call with each other, the
// clock and the cleanup; store calls may fail and requests may die.
module IdempotencyRuns {
  import opened Common
  import opened Idempotency

  datatype Phase =
    | Arrived(key: Key)                       // store.Get to come
    | Handling(key: Key, capturing: bool)     // inside the handler
    | Answered(key: Key, response: Response)  // store.Set to come

  datatype Handled = Handled(key: Key, script: seq<Write>)
  datatype Replay = Replay(key: Key, response: Response, writer: nat)

  // The last four fields are history: what each captured handler wrote, which request's Set
  // inserted each row, the key of every handler start, and every replay.
  datatype System = System(
    now: Time,
    rows: map<Key, Row>,
    requests: map<nat, Phase>,
    handled: map<nat, Handled>,
    writers: map<Key, nat>,
    starts: seq<Key>,
    replays: seq<Replay>)

  datatype Step =
    | Tick(elapsed: nat)
    | Arrive(request: nat, key: Key)
    | GetHit(request: nat)
    | GetMiss(request: nat)
    | GetFails(request: nat)
    | HandlerEnds(request: nat, script: seq<Write>)
    | SetRow(request: nat)
    | SetFails(request: nat)
    | Die(request: nat)
    | Cleanup

  function Init(now: Time): System {
    System(now, map[], map[], map[], map[], [], [])
  }

  predicate Waiting(s: System, r: nat) {
    r in s.requests && s.requests[r].Arrived?
  }

  predicate Enabled(s: System, step: Step) {
    match step
    case Tick(_) => true
    case Arrive(r, _) => r !in s.requests && r !in s.handled
    case GetHit(r) => Waiting(s, r) && Found(s.rows, s.requests[r].key, s.now).Some?
    case GetMiss(r) => Waiting(s, r) && Found(s.rows, s.requests[r].key, s.now).None?
    case GetFails(r) => Waiting(s, r)
    case HandlerEnds(r, _) => r in s.requests && s.requests[r].Handling?
    case SetRow(r) => r in s.requests && s.requests[r].Answered?
    case SetFails(r) => r in s.requests && s.requests[r].Answered?
    case Die(r) => r in s.requests
    case Cleanup => true
  }

  // A key in writers is a key whose row exists or once did; Cleanup need not forget it, but the
  // next insert overwrites it.
  function Next(s: System, step: Step): (s': System)
    requires Enabled(s, step) && s.rows.Keys <= s.writers.Keys
    ensures s'.rows.Keys <= s'.writers.Keys
  {
    match step
    case Tick(elapsed) => s.(now := s.now + elapsed)
    case Arrive(r, key) => s.(requests := s.requests[r := Arrived(key)])
    case GetHit(r) =>
      var key := s.requests[r].key;
      s.(requests := s.requests - {r}, replays := s.replays + [Replay(key, s.rows[key].response, s.writers[key])])
    case GetMiss(r) => Start(s, r, true)
    case GetFails(r) => Start(s, r, false)
    case HandlerEnds(r, script) =>
      var Handling(key, capturing) := s.requests[r];
      if !capturing then s.(requests := s.requests - {r})
      else
        var response := Captured(script);
        s.(handled := s.handled[r := Handled(key, script)],
           requests := if Cacheable(response) then s.requests[r := Answered(key, response)] else s.requests - {r})
    case SetRow(r) =>
      var Answered(key, response) := s.requests[r];
      s.(rows := Stored(s.rows, key, response, s.now),
         writers := if key in s.rows then s.writers else s.writers[key := r],
         requests := s.requests - {r})
    case SetFails(r) => s.(requests := s.requests - {r})
    case Die(r) => s.(requests := s.requests - {r})
    case Cleanup => s.(rows := Unexpired(s.rows, s.now))
  }

  function Start(s: System, r: nat, capturing: bool): System
    requires Waiting(s, r)
  {
    s.(requests := s.requests[r := Handling(s.requests[r].key, capturing)], starts := s.starts + [s.requests[r].key])
  }

  ghost predicate IsRun(s: System, steps: seq<Step>)
    requires s.rows.Keys <= s.writers.Keys
    decreases |steps|
  {
    |steps| == 0 || (Enabled(s, steps[0]) && IsRun(Next(s, steps[0]), steps[1..]))
  }

  ghost function After(s: System, steps: seq<Step>): (s': System)
    requires s.rows.Keys <= s.writers.Keys && IsRun(s, steps)
    ensures s'.rows.Keys <= s'.writers.Keys
    decreases |steps|
  {
    if |steps| == 0 then s else After(Next(s, steps[0]), steps[1..])
  }

  // ---- Where responses come from ----

  // The request's handler ran for this key, this is what was captured of it, and it was a 2xx.
  ghost predicate Produced(s: System, r: nat, key: Key, response: Response) {
    && r in s.handled && s.handled[r].key == key
    && response == Captured(s.handled[r].script) && Cacheable(response)
  }

  ghost predicate RowsProduced(s: System) {
    && s.rows.Keys <= s.writers.Keys
    && forall key :: key in s.rows ==> Produced(s, s.writers[key], key, s.rows[key].response)
  }

  ghost predicate ReplaysProduced(s: System) {
    forall i :: 0 <= i < |s.replays| ==> Produced(s, s.replays[i].writer, s.replays[i].key, s.replays[i].response)
  }

  ghost predicate RequestsOk(s: System) {
    forall r :: r in s.requests ==>
      if s.requests[r].Answered? then Produced(s, r, s.requests[r].key, s.requests[r].response) else r !in s.handled
  }

  ghost predicate Inv(s: System) {
    RowsProduced(s) && ReplaysProduced(s) && RequestsOk(s)
  }

  // What has been produced stays produced.
  lemma HandledGrows(s: System, step: Step)
    requires Inv(s) && Enabled(s, step)
    ensures forall r :: r in s.handled ==> r in Next(s, step).handled && Next(s, step).handled[r] == s.handled[r]
  {
  }

  lemma NextKeepsRequests(s: System, step: Step)
    requires Inv(s) && Enabled(s, step)
    ensures RequestsOk(Next(s, step))
  {
    HandledGrows(s, step);
  }

  lemma NextKeepsRows(s: System, step: Step)
    requires Inv(s) && Enabled(s, step)
    ensures RowsProduced(Next(s, step))
  {
    HandledGrows(s, step);
  }

  lemma NextKeepsReplays(s: System, step: Step)
    requires Inv(s) && Enabled(s, step)
    ensures ReplaysProduced(Next(s, step))
  {
    HandledGrows(s, step);
  }

  lemma {:induction false} RunKeepsInv(s: System, steps: seq<Step>)
    requires Inv(s) && IsRun(s, steps)
    ensures Inv(After(s, steps))
    decreases |steps|
  {
    if |steps| > 0 {
      NextKeepsRequests(s, steps[0]);
      NextKeepsRows(s, steps[0]);
      NextKeepsReplays(s, steps[0]);
      RunKeepsInv(Next(s, steps[0]), steps[1..]);
    }
  }

  // In every interleaving, a replay is what was captured, a 2xx, from the request whose Set inserted
  // the row, and that request carried the same tenant and key. It is the response that request's
  // client was sent exactly when the handler's last header repeated what went out.
  lemma ReplaysAreGenuine(now: Time, steps: seq<Step>, i: nat)
    requires IsRun(Init(now), steps) && i < |After(Init(now), steps).replays|
    ensures var s := After(Init(now), steps);
            var replay := s.replays[i];
            && replay.writer in s.handled && s.handled[replay.writer].key == replay.key
            && replay.response == Captured(s.handled[replay.writer].script)
            && 200 <= replay.response.status <= 299
            && (replay.response == Sent(s.handled[replay.writer].script)
                <==> LastHeaderWasSent(s.handled[replay.writer].script))
  {
    RunKeepsInv(Init(now), steps);
    var s := After(Init(now), steps);
    CapturedIsSent(s.handled[s.replays[i].writer].script);
  }

  // And no response of another status is ever in the store.
  lemma StoredAreSuccesses(now: Time, steps: seq<Step>, key: Key)
    requires IsRun(Init(now), steps) && key in After(Init(now), steps).rows
    ensures var s := After(Init(now), steps);
            && 200 <= s.rows[key].response.status <= 299
            && s.writers[key] in s.handled && s.handled[s.writers[key]].key == key
            && s.rows[key].response == Captured(s.handled[s.writers[key]].script)
  {
    RunKeepsInv(Init(now), steps);
  }

  ghost predicate HandledAreReplies(s: System) {
    forall r :: r in s.handled ==> IsReply(s.handled[r].script)
  }

  lemma {:induction false} HandledStayReplies(s: System, steps: seq<Step>)
    requires s.rows.Keys <= s.writers.Keys && IsRun(s, steps) && HandledAreReplies(s)
    requires forall i :: 0 <= i < |steps| && steps[i].HandlerEnds? ==> IsReply(steps[i].script)
    ensures HandledAreReplies(After(s, steps))
    decreases |steps|
  {
    if |steps| > 0 {
      HandledStayReplies(Next(s, steps[0]), steps[1..]);
    }
  }

  // The one route behind the middleware, POST /media (internal/adapter/server/router.go:113), answers
  // through writeJSON and writeError only: there every replay is what the first client was sent.
  lemma RouteReplaysAreExact(now: Time, steps: seq<Step>, i: nat)
    requires IsRun(Init(now), steps) && i < |After(Init(now), steps).replays|
    requires forall k :: 0 <= k < |steps| && steps[k].HandlerEnds? ==> IsReply(steps[k].script)
    ensures var s := After(Init(now), steps);
            s.replays[i].writer in s.handled && s.replays[i].response == Sent(s.handled[s.replays[i].writer].script)
  {
    RunKeepsInv(Init(now), steps);
    HandledStayReplies(Init(now), steps);
    var s := After(Init(now), steps);
    var script := s.handled[s.replays[i].writer].script;
    var status, chunks, failure :| script == Reply(status, chunks, failure);
    RepliesAreCachedAsSent(status, chunks, failure);
  }

  // ---- A row's lifetime ----

  lemma {:induction false} TimeGoesOn(s: System, steps: seq<Step>)
    requires s.rows.Keys <= s.writers.Keys && IsRun(s, steps)
    ensures After(s, steps).now >= s.now
    decreases |steps|
  {
    if |steps| > 0 {
      TimeGoesOn(Next(s, steps[0]), steps[1..]);
    }
  }

  function Count(keys: seq<Key>, key: Key): nat {
    multiset(keys)[key]
  }

  // A failing read of the key's row.
  predicate FailsRead(s: System, step: Step, key: Key) {
    step.GetFails? && Waiting(s, step.request) && s.requests[step.request].key == key
  }

  ghost predicate ReadsSucceed(s: System, steps: seq<Step>, key: Key)
    requires s.rows.Keys <= s.writers.Keys && IsRun(s, steps)
    decreases |steps|
  {
    |steps| == 0 || (!FailsRead(s, steps[0], key) && ReadsSucceed(Next(s, steps[0]), steps[1..], key))
  }

  // What s' has replayed for the key since s is this response of this writer.
  ghost predicate ReplaysOnly(s: System, s': System, key: Key, response: Response, writer: nat) {
    && |s'.replays| >= |s.replays|
    && (forall i :: 0 <= i < |s.replays| ==> s'.replays[i] == s.replays[i])
    && (forall i :: |s.replays| <= i < |s'.replays| && s'.replays[i].key == key ==>
          s'.replays[i] == Replay(key, response, writer))
  }

  lemma RowHoldsOneStep(s: System, step: Step, key: Key)
    requires s.rows.Keys <= s.writers.Keys && Enabled(s, step)
    requires key in s.rows && s.rows[key].expires > s.now && s.rows[key].expires > Next(s, step).now
    ensures var s' := Next(s, step);
            && key in s'.rows && s'.rows[key] == s.rows[key] && s'.writers[key] == s.writers[key]
            && (!FailsRead(s, step, key) ==> Count(s'.starts, key) == Count(s.starts, key))
            && ReplaysOnly(s, s', key, s.rows[key].response, s.writers[key])
  {
  }

  // Until its row expires, a key's row does not change, every replay for the key is that row's
  // response, and, as long as reads of this key succeed, no further request gets to run the handler.
  lemma {:induction false} RowHolds(s: System, steps: seq<Step>, key: Key)
    requires s.rows.Keys <= s.writers.Keys && IsRun(s, steps)
    requires key in s.rows && s.rows[key].expires > After(s, steps).now
    ensures var s' := After(s, steps);
            && key in s'.rows && s'.rows[key] == s.rows[key] && s'.writers[key] == s.writers[key]
            && (ReadsSucceed(s, steps, key) ==> Count(s'.starts, key) == Count(s.starts, key))
            && ReplaysOnly(s, s', key, s.rows[key].response, s.writers[key])
    decreases |steps|
  {
    TimeGoesOn(s, steps);
    if |steps| > 0 {
      TimeGoesOn(Next(s, steps[0]), steps[1..]);
      RowHoldsOneStep(s, steps[0], key);
      RowHolds(Next(s, steps[0]), steps[1..], key);
    }
  }

  // ---- When a stored response is replayed ----

  // After a request's Set the next read returns its own response exactly when no row had the key,
  // or an unexpired one held the same response: an expired row blocks the insert, and so does the
  // row of an overlapping request.
  lemma OwnResponseIsFoundIff(s: System, r: nat)
    requires s.rows.Keys <= s.writers.Keys && Enabled(s, SetRow(r))
    ensures var Answered(key, response) := s.requests[r];
            var found := Found(Next(s, SetRow(r)).rows, key, s.now);
            && (found == Some(response) <==>
                  key !in s.rows || (s.rows[key].expires > s.now && s.rows[key].response == response))
            && (found.None? <==> key in s.rows && s.rows[key].expires <= s.now)
  {
  }

  // Some replay for the key since s is this response.
  ghost predicate Replays(s: System, s': System, key: Key, response: Response) {
    exists i :: |s.replays| <= i < |s'.replays| && s'.replays[i].key == key && s'.replays[i].response == response
  }

  // While nobody sets a row, a replay for the key is of the row that is there now, if it can be found.
  lemma {:induction false} OnlyTheRowIsReplayed(s: System, steps: seq<Step>, key: Key, response: Response)
    requires s.rows.Keys <= s.writers.Keys && IsRun(s, steps)
    requires forall k :: 0 <= k < |steps| ==> !steps[k].SetRow?
    requires Replays(s, After(s, steps), key, response)
    ensures Found(s.rows, key, s.now) == Some(response)
    decreases |steps|
  {
    if |steps| > 0 {
      var s1 := Next(s, steps[0]);
      if Replays(s1, After(s1, steps[1..]), key, response) {
        OnlyTheRowIsReplayed(s1, steps[1..], key, response);
      } else {
        ReplaysKept(s1, steps[1..]);
        assert Replays(s, s1, key, response);
      }
    }
  }

  lemma {:induction false} ReplaysKept(s: System, steps: seq<Step>)
    requires s.rows.Keys <= s.writers.Keys && IsRun(s, steps)
    ensures |After(s, steps).replays| >= |s.replays|
    ensures forall i :: 0 <= i < |s.replays| ==> After(s, steps).replays[i] == s.replays[i]
    decreases |steps|
  {
    if |steps| > 0 {
      ReplaysKept(Next(s, steps[0]), steps[1..]);
    }
  }

  ghost predicate IsReplayedIn(s: System, steps: seq<Step>, key: Key, response: Response)
    requires s.rows.Keys <= s.writers.Keys
  {
    && IsRun(s, steps) && (forall k :: 0 <= k < |steps| ==> !steps[k].SetRow?)
    && Replays(s, After(s, steps), key, response)
  }

  lemma ReplayNow(s: System, key: Key, response: Response) returns (steps: seq<Step>)
    requires s.rows.Keys <= s.writers.Keys && Found(s.rows, key, s.now) == Some(response)
    ensures IsReplayedIn(s, steps, key, response)
  {
    var r := UnusedExists(s.requests.Keys + s.handled.Keys);
    steps := [Arrive(r, key)] + ([GetHit(r)] + []);
    var s1 := Next(s, Arrive(r, key));
    StepThen(s1, GetHit(r), []);
    StepThen(s, Arrive(r, key), [GetHit(r)] + []);
    assert After(s, steps).replays[|s.replays|].response == response;
  }

  // Over whole runs: after a request's Set its own response can be replayed, as long as nobody else
  // sets a row, exactly when no row had the key or an unexpired one held the same response; and then it
  // is what every replay of the key gets until the row expires.
  lemma OwnResponseIsReplayedIff(s: System, r: nat)
    requires s.rows.Keys <= s.writers.Keys && Enabled(s, SetRow(r))
    ensures var Answered(key, response) := s.requests[r];
            var s1 := Next(s, SetRow(r));
            var own := key !in s.rows || (s.rows[key].expires > s.now && s.rows[key].response == response);
            && ((exists steps :: IsReplayedIn(s1, steps, key, response)) <==> own)
            && (own ==> forall steps :: IsRun(s1, steps) && After(s1, steps).now < s1.rows[key].expires ==>
                  ReplaysOnly(s1, After(s1, steps), key, response, s1.writers[key]))
  {
    var Answered(key, response) := s.requests[r];
    var s1 := Next(s, SetRow(r));
    OwnResponseIsFoundIff(s, r);
    if Found(s1.rows, key, s1.now) == Some(response) {
      var steps := ReplayNow(s1, key, response);
      forall steps | IsRun(s1, steps) && After(s1, steps).now < s1.rows[key].expires
        ensures ReplaysOnly(s1, After(s1, steps), key, response, s1.writers[key])
      {
        RowHolds(s1, steps, key);
      }
    }
    if steps :| IsReplayedIn(s1, steps, key, response) {
      OnlyTheRowIsReplayed(s1, steps, key, response);
    }
  }

  // Cleaning up first removes the expired row from the way; an overlapping request's stays in it.
  lemma CleanupUnblocks(s: System, r: nat)
    requires s.rows.Keys <= s.writers.Keys && Enabled(s, SetRow(r))
    ensures var Answered(key, response) := s.requests[r];
            var before := Found(s.rows, key, s.now);
            Found(Next(Next(s, Cleanup), SetRow(r)).rows, key, s.now) == if before.Some? then before else Some(response)
  {
  }

  // One request from start to end, undisturbed.
  function Whole(r: nat, key: Key, script: seq<Write>): seq<Step> {
    [Arrive(r, key)] + ([GetMiss(r)] + ([HandlerEnds(r, script)] + ([SetRow(r)] + [])))
  }

  ghost predicate Unused(s: System, r: nat) {
    r !in s.requests && r !in s.handled
  }

  // A miss that is captured with status 200 to 299 stores that response for a day, if the key has no row.
  lemma WholeRuns(s: System, r: nat, key: Key, script: seq<Write>)
    requires s.rows.Keys <= s.writers.Keys && Unused(s, r)
    requires key in s.rows ==> s.rows[key].expires <= s.now
    requires 200 <= Captured(script).status <= 299
    ensures IsRun(s, Whole(r, key, script))
    ensures var s' := After(s, Whole(r, key, script));
            && s'.rows == (if key in s.rows then s.rows
                           else s.rows[key := Row(Captured(script), s.now + 86_400 * SECOND)])
            && s'.now == s.now && s'.requests == s.requests && s'.handled.Keys == s.handled.Keys + {r}
  {
    var s1 := Next(s, Arrive(r, key));
    var s2 := Next(s1, GetMiss(r));
    var s3 := Next(s2, HandlerEnds(r, script));
    StepThen(s3, SetRow(r), []);
    StepThen(s2, HandlerEnds(r, script), [SetRow(r)] + []);
    StepThen(s1, GetMiss(r), [HandlerEnds(r, script)] + ([SetRow(r)] + []));
    StepThen(s, Arrive(r, key), [GetMiss(r)] + ([HandlerEnds(r, script)] + ([SetRow(r)] + [])));
    assert s3.requests - {r} == s.requests;
  }

  // A miss that is captured with any other status leaves nothing to be stored, and the next request with
  // the key, if its read works, runs the handler.
  lemma OtherStatusesLeaveNothing(s: System, a: nat, b: nat, key: Key, script: seq<Write>)
    requires s.rows.Keys <= s.writers.Keys && Unused(s, a) && Unused(s, b) && a != b
    requires key in s.rows ==> s.rows[key].expires <= s.now
    requires !(200 <= Captured(script).status <= 299)
    ensures var steps := [Arrive(a, key)] + ([GetMiss(a)] + ([HandlerEnds(a, script)] + []));
            && IsRun(s, steps)
            && var s1 := After(s, steps);
               && s1.rows == s.rows && s1.requests == s.requests && s1.starts == s.starts + [key]
               && !Enabled(s1, SetRow(a)) && Unused(s1, b)
               && var s2 := Next(s1, Arrive(b, key));
                  && !Enabled(s2, GetHit(b)) && Enabled(s2, GetMiss(b))
                  && Next(s2, GetMiss(b)).starts == s.starts + [key] + [key]
  {
    var s1 := Next(s, Arrive(a, key));
    var s2 := Next(s1, GetMiss(a));
    var s3 := Next(s2, HandlerEnds(a, script));
    StepThen(s2, HandlerEnds(a, script), []);
    StepThen(s1, GetMiss(a), [HandlerEnds(a, script)] + []);
    StepThen(s, Arrive(a, key), [GetMiss(a)] + ([HandlerEnds(a, script)] + []));
    assert s3.requests == s.requests;
  }

  lemma {:induction false} RunThenRun(s: System, first: seq<Step>, rest: seq<Step>)
    requires s.rows.Keys <= s.writers.Keys && IsRun(s, first) && IsRun(After(s, first), rest)
    ensures IsRun(s, first + rest) && After(s, first + rest) == After(After(s, first), rest)
    decreases |first|
  {
    if |first| == 0 {
      assert first + rest == rest;
    } else {
      RunThenRun(Next(s, first[0]), first[1..], rest);
      StepThen(s, first[0], first[1..] + rest);
      assert first + rest == [first[0]] + (first[1..] + rest);
    }
  }

  // From an empty store: a request, a day's wait without cleanup, the same key again. The second
  // request completes, its response is dropped, and a third would run the handler once more.
  lemma ExpiredRowBlocks(now: Time, key: Key, first: seq<Write>, second: seq<Write>)
    requires 200 <= Captured(first).status <= 299 && 200 <= Captured(second).status <= 299
    ensures var steps := Whole(0, key, first) + ([Tick(TTL)] + Whole(1, key, second));
            && IsRun(Init(now), steps)
            && var s := After(Init(now), steps);
               && s.rows == map[key := Row(Captured(first), now + TTL)]
               && 1 in s.handled && Found(s.rows, key, s.now).None?
  {
    WholeRuns(Init(now), 0, key, first);
    var s1 := After(Init(now), Whole(0, key, first));
    var s2 := Next(s1, Tick(TTL));
    WholeRuns(s2, 1, key, second);
    StepThen(s1, Tick(TTL), Whole(1, key, second));
    RunThenRun(Init(now), Whole(0, key, first), [Tick(TTL)] + Whole(1, key, second));
  }

  // ---- When the handler can run again ----

  // Without time passing and with every read of the key succeeding, the run starts the handler for it.
  ghost predicate StartsAtOnce(s: System, steps: seq<Step>, key: Key)
    requires s.rows.Keys <= s.writers.Keys
  {
    && IsRun(s, steps)
    && ReadsSucceed(s, steps, key) && (forall i :: 0 <= i < |steps| ==> !steps[i].Tick?)
    && Count(After(s, steps).starts, key) > Count(s.starts, key)
  }

  lemma {:induction false} NoTimePasses(s: System, steps: seq<Step>)
    requires s.rows.Keys <= s.writers.Keys && IsRun(s, steps)
    requires forall i :: 0 <= i < |steps| ==> !steps[i].Tick?
    ensures After(s, steps).now == s.now
    decreases |steps|
  {
    if |steps| > 0 {
      NoTimePasses(Next(s, steps[0]), steps[1..]);
    }
  }

  lemma {:induction false} UnusedExists(used: set<nat>) returns (r: nat)
    ensures forall u :: u in used ==> u < r
  {
    if used == {} {
      r := 0;
    } else {
      var u :| u in used;
      r := UnusedExists(used - {u});
      assert forall v :: v in used ==> v in used - {u} || v == u;
      if r <= u {
        r := u + 1;
      }
    }
  }

  // Requests that overlap all get past their reads: whatever else is under way, any two new ones
  // both run the handler if no unexpired row is there.
  lemma OverlapRunsTwice(s: System, key: Key, a: nat, b: nat)
    requires s.rows.Keys <= s.writers.Keys && Unused(s, a) && Unused(s, b) && a != b
    requires Found(s.rows, key, s.now).None?
    ensures var steps := [Arrive(a, key)] + ([Arrive(b, key)] + ([GetMiss(a)] + ([GetMiss(b)] + [])));
            IsRun(s, steps) && After(s, steps).starts == s.starts + [key] + [key]
  {
    var s1 := Next(s, Arrive(a, key));
    var s2 := Next(s1, Arrive(b, key));
    var s3 := Next(s2, GetMiss(a));
    StepThen(s3, GetMiss(b), []);
    StepThen(s2, GetMiss(a), [GetMiss(b)] + []);
    StepThen(s1, Arrive(b, key), [GetMiss(a)] + ([GetMiss(b)] + []));
    StepThen(s, Arrive(a, key), [Arrive(b, key)] + ([GetMiss(a)] + ([GetMiss(b)] + [])));
  }

  lemma StartNow(s: System, key: Key) returns (steps: seq<Step>)
    requires s.rows.Keys <= s.writers.Keys && Found(s.rows, key, s.now).None?
    ensures StartsAtOnce(s, steps, key)
  {
    var r := UnusedExists(s.requests.Keys + s.handled.Keys);
    steps := [Arrive(r, key)] + ([GetMiss(r)] + []);
    var s1 := Next(s, Arrive(r, key));
    StepThen(s1, GetMiss(r), []);
    StepThen(s, Arrive(r, key), [GetMiss(r)] + []);
    assert After(s, steps).starts == s.starts + [key];
  }

  // In any state the handler can be started for a key, with working reads and at once, exactly when
  // the store holds no unexpired row for it: at most once holds from the Set on, until the row
  // expires, and at no other time.
  lemma HandlerCanStartIff(s: System, key: Key)
    requires s.rows.Keys <= s.writers.Keys
    ensures (exists steps :: StartsAtOnce(s, steps, key)) <==> Found(s.rows, key, s.now).None?
  {
    if Found(s.rows, key, s.now).None? {
      var steps := StartNow(s, key);
    }
    if steps :| StartsAtOnce(s, steps, key) {
      NoTimePasses(s, steps);
      if Found(s.rows, key, s.now).Some? {
        RowHolds(s, steps, key);
        assert false;
      }
    }
  }

  lemma StepThen(s: System, first: Step, rest: seq<Step>)
    requires s.rows.Keys <= s.writers.Keys && Enabled(s, first) && IsRun(Next(s, first), rest)
    ensures IsRun(s, [first] + rest) && After(s, [first] + rest) == After(Next(s, first), rest)
  {
    assert ([first] + rest)[1..] == rest;
  }
}
