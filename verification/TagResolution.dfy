// TagRepo.CreateOrGet (internal/adapter/postgres/tag_repo.go) with its INSERT and its SELECT as
// separate steps of many callers. An uncommitted row holds its name: the unique index makes other
// inserts of that name wait for the commit or the rollback.
module TagResolution {
  import opened Common
  import opened Traces

  datatype Name = Name(tenant: Uuid, name: string)

  datatype Caller =
    | Inserted(name: Name, id: Uuid) // own row inserted, not yet committed
    | Conflicted(name: Name)         // ON CONFLICT DO NOTHING returned no row; SELECT to come

  datatype Answer = Answer(name: Name, id: Uuid, created: bool)

  // answers is history: what the calls have returned.
  datatype System = System(rows: map<Uuid, Name>, callers: map<nat, Caller>, answers: seq<Answer>)

  datatype Step =
    | Insert(caller: nat, name: Name, id: Uuid)
    | Conflict(caller: nat, name: Name)
    | Commit(caller: nat)
    | Select(caller: nat, id: Uuid)
    | SelectNothing(caller: nat)
    | Abort(caller: nat)
    | Drop(id: Uuid)               // another request deletes the tag,
    | Rename(id: Uuid, name: Name) // or renames it; the unique index rejects a name that is taken

  predicate Present(s: System, name: Name) {
    exists id :: id in s.rows && s.rows[id] == name
  }

  predicate Pending(s: System, name: Name) {
    exists c :: c in s.callers && s.callers[c].Inserted? && s.callers[c].name == name
  }

  predicate Enabled(s: System, step: Step) {
    match step
    case Insert(c, name, id) =>
      && c !in s.callers && !Present(s, name) && !Pending(s, name)
      && id !in s.rows && (forall d :: d in s.callers && s.callers[d].Inserted? ==> s.callers[d].id != id)
    case Conflict(c, name) => c !in s.callers && Present(s, name)
    case Commit(c) => c in s.callers && s.callers[c].Inserted?
    case Select(c, id) => c in s.callers && s.callers[c].Conflicted? && id in s.rows && s.rows[id] == s.callers[c].name
    case SelectNothing(c) => c in s.callers && s.callers[c].Conflicted? && !Present(s, s.callers[c].name)
    case Abort(c) => c in s.callers
    case Drop(id) => id in s.rows
    case Rename(id, name) => id in s.rows && (s.rows[id] == name || (!Present(s, name) && !Pending(s, name)))
  }

  function Next(s: System, step: Step): System
    requires Enabled(s, step)
  {
    match step
    case Insert(c, name, id) => s.(callers := s.callers[c := Inserted(name, id)])
    case Conflict(c, name) => s.(callers := s.callers[c := Conflicted(name)])
    case Commit(c) =>
      var Inserted(name, id) := s.callers[c];
      System(s.rows[id := name], s.callers - {c}, s.answers + [Answer(name, id, true)])
    case Select(c, id) => s.(callers := s.callers - {c}, answers := s.answers + [Answer(s.rows[id], id, false)])
    case SelectNothing(c) => s.(callers := s.callers - {c})
    case Abort(c) => s.(callers := s.callers - {c})
    case Drop(id) => s.(rows := s.rows - {id})
    case Rename(id, name) => s.(rows := s.rows[id := name])
  }

  ghost predicate IsRun(s: System, steps: seq<Step>)
    decreases |steps|
  {
    |steps| == 0 || (Enabled(s, steps[0]) && IsRun(Next(s, steps[0]), steps[1..]))
  }

  ghost function After(s: System, steps: seq<Step>): System
    requires IsRun(s, steps)
    decreases |steps|
  {
    if |steps| == 0 then s else After(Next(s, steps[0]), steps[1..])
  }

  // ---- Steps that take a name away or give it to a row ----

  predicate Takes(s: System, step: Step, name: Name) {
    match step
    case Drop(id) => id in s.rows && s.rows[id] == name
    case Rename(id, other) => id in s.rows && s.rows[id] == name && other != name
    case _ => false
  }

  predicate Gives(s: System, step: Step, name: Name) {
    match step
    case Commit(c) => c in s.callers && s.callers[c].Inserted? && s.callers[c].name == name
    case Rename(_, other) => other == name
    case _ => false
  }

  // ---- Invariant ----

  predicate HoldsName(s: System, c: nat) {
    c in s.callers && s.callers[c].Inserted?
  }

  ghost predicate UniqueNames(s: System) {
    && (forall a, b :: a in s.rows && b in s.rows && s.rows[a] == s.rows[b] ==> a == b)
    && (forall c, d :: HoldsName(s, c) && HoldsName(s, d) && c != d ==>
          s.callers[c].name != s.callers[d].name && s.callers[c].id != s.callers[d].id)
    && (forall c :: HoldsName(s, c) ==>
          s.callers[c].id !in s.rows && !Present(s, s.callers[c].name))
  }

  // No step of any kind, deletions and renames included, breaks the unique index.
  lemma NextKeepsUnique(s: System, step: Step)
    requires UniqueNames(s) && Enabled(s, step)
    ensures UniqueNames(Next(s, step))
  {
    var s' := Next(s, step);
    forall c | c in s'.callers && s'.callers[c].Inserted?
      ensures s'.callers[c].id !in s'.rows && !Present(s', s'.callers[c].name)
    {
      if step.Insert? && c == step.caller {
        assert !Present(s, step.name);
      } else {
        assert !Present(s, s.callers[c].name);
      }
    }
  }

  // Whether a name is there after a step.
  lemma PresenceAfterStep(s: System, step: Step, name: Name)
    requires UniqueNames(s) && Enabled(s, step)
    ensures !Present(Next(s, step), name) <==> Takes(s, step, name) || (!Present(s, name) && !Gives(s, step, name))
  {
    var s' := Next(s, step);
    if Gives(s, step, name) {
      var id := if step.Commit? then s.callers[step.caller].id else step.id;
      assert id in s'.rows && s'.rows[id] == name;
    } else if Present(s, name) && !Takes(s, step, name) {
      var id :| id in s.rows && s.rows[id] == name;
      assert id in s'.rows && s'.rows[id] == name;
    }
  }

  // ---- When a SELECT comes back empty ----

  // The states a run passes through, the first one included.
  ghost function States(s: System, steps: seq<Step>): (states: seq<System>)
    requires IsRun(s, steps)
    ensures |states| == |steps| + 1 && states[0] == s
    decreases |steps|
  {
    if |steps| == 0 then [s] else [s] + States(Next(s, steps[0]), steps[1..])
  }

  lemma {:induction false} StateAt(s: System, steps: seq<Step>, k: nat)
    requires UniqueNames(s) && IsRun(s, steps) && k < |steps|
    ensures UniqueNames(States(s, steps)[k]) && Enabled(States(s, steps)[k], steps[k])
    ensures States(s, steps)[k + 1] == Next(States(s, steps)[k], steps[k])
    decreases k
  {
    if k > 0 {
      NextKeepsUnique(s, steps[0]);
      StateAt(Next(s, steps[0]), steps[1..], k - 1);
    }
  }

  lemma {:induction false} LastState(s: System, steps: seq<Step>)
    requires IsRun(s, steps)
    ensures States(s, steps)[|steps|] == After(s, steps)
    decreases |steps|
  {
    if |steps| > 0 {
      LastState(Next(s, steps[0]), steps[1..]);
    }
  }

  ghost function TakesOf(s: System, steps: seq<Step>, name: Name): seq<bool>
    requires IsRun(s, steps)
  {
    seq(|steps|, k requires 0 <= k < |steps| => Takes(States(s, steps)[k], steps[k], name))
  }

  ghost function GivesOf(s: System, steps: seq<Step>, name: Name): seq<bool>
    requires IsRun(s, steps)
  {
    seq(|steps|, k requires 0 <= k < |steps| => Gives(States(s, steps)[k], steps[k], name))
  }

  // Some step takes the name away, and no later one gives it to a row.
  ghost predicate Gone(s: System, steps: seq<Step>, name: Name)
    requires IsRun(s, steps)
  {
    TakenForGood(TakesOf(s, steps, name), GivesOf(s, steps, name))
  }

  ghost function HasOf(s: System, steps: seq<Step>, name: Name): seq<bool>
    requires IsRun(s, steps)
  {
    seq(|steps| + 1, k requires 0 <= k <= |steps| => Present(States(s, steps)[k], name))
  }

  lemma PresenceTracksAt(s: System, steps: seq<Step>, name: Name, k: nat)
    requires UniqueNames(s) && IsRun(s, steps) && k < |steps|
    ensures !HasOf(s, steps, name)[k + 1] <==>
            TakesOf(s, steps, name)[k] || (!HasOf(s, steps, name)[k] && !GivesOf(s, steps, name)[k])
  {
    StateAt(s, steps, k);
    PresenceAfterStep(States(s, steps)[k], steps[k], name);
  }

  lemma PresenceTracks(s: System, steps: seq<Step>, name: Name)
    requires UniqueNames(s) && IsRun(s, steps)
    ensures Tracks(HasOf(s, steps, name), TakesOf(s, steps, name), GivesOf(s, steps, name))
  {
    forall k | 0 <= k < |steps| {
      PresenceTracksAt(s, steps, name, k);
    }
  }

  // Whether a name that was there is there after a run.
  lemma AbsentAfterIff(s: System, steps: seq<Step>, name: Name)
    requires UniqueNames(s) && IsRun(s, steps) && Present(s, name)
    ensures !Present(After(s, steps), name) <==> Gone(s, steps, name)
  {
    LastState(s, steps);
    PresenceTracks(s, steps, name);
    AbsentAtEndIff(HasOf(s, steps, name), TakesOf(s, steps, name), GivesOf(s, steps, name));
  }

  predicate IsStepOf(step: Step, c: nat) {
    match step
    case Drop(_) => false
    case Rename(_, _) => false
    case _ => step.caller == c
  }

  lemma {:induction false} CallerWaits(s: System, steps: seq<Step>, c: nat)
    requires IsRun(s, steps) && c in s.callers
    requires forall k :: 0 <= k < |steps| ==> !IsStepOf(steps[k], c)
    ensures c in After(s, steps).callers && After(s, steps).callers[c] == s.callers[c]
    decreases |steps|
  {
    if |steps| > 0 {
      CallerWaits(Next(s, steps[0]), steps[1..], c);
    }
  }

  // A caller whose INSERT met the name's row: whatever others do before its SELECT, the SELECT comes
  // back empty exactly when one of them took the name away and none gave it to a row afterwards.
  lemma SelectComesBackEmptyIff(s: System, steps: seq<Step>, c: nat, name: Name)
    requires UniqueNames(s) && IsRun(s, steps)
    requires c in s.callers && s.callers[c] == Conflicted(name) && Present(s, name)
    requires forall k :: 0 <= k < |steps| ==> !IsStepOf(steps[k], c)
    ensures Enabled(After(s, steps), SelectNothing(c)) <==> Gone(s, steps, name)
  {
    CallerWaits(s, steps, c);
    AbsentAfterIff(s, steps, name);
  }

  // ---- What the calls for one name answer ----

  // Nobody takes the name away or renames another tag to it.
  ghost predicate Calm(s: System, steps: seq<Step>, name: Name)
    requires IsRun(s, steps)
    decreases |steps|
  {
    |steps| == 0 ||
    (&& !Takes(s, steps[0], name) && !(steps[0].Rename? && steps[0].name == name)
     && Calm(Next(s, steps[0]), steps[1..], name))
  }

  // A caller sent to the SELECT will find its row.
  ghost predicate SelectsHit(s: System, name: Name) {
    forall c :: c in s.callers && s.callers[c] == Conflicted(name) ==> Present(s, name)
  }

  // Every answer for the name gives the row of that name.
  ghost predicate AnswersName(s: System, name: Name) {
    forall i :: 0 <= i < |s.answers| && s.answers[i].name == name ==>
      s.answers[i].id in s.rows && s.rows[s.answers[i].id] == name
  }

  predicate CreatedIt(s: System, name: Name, i: int) {
    0 <= i < |s.answers| && s.answers[i].name == name && s.answers[i].created
  }

  // At most one answer says created; one does exactly when the row is there and was not at the start.
  ghost predicate CreatedOnce(atStart: bool, s: System, name: Name) {
    && (forall i, j :: CreatedIt(s, name, i) && CreatedIt(s, name, j) ==> i == j)
    && ((exists i :: CreatedIt(s, name, i)) <==> Present(s, name) && !atStart)
    && (atStart ==> Present(s, name))
  }

  ghost predicate Inv(atStart: bool, s: System, name: Name) {
    UniqueNames(s) && SelectsHit(s, name) && AnswersName(s, name) && CreatedOnce(atStart, s, name)
  }

  ghost predicate CalmStep(s: System, step: Step, name: Name) {
    !Takes(s, step, name) && !(step.Rename? && step.name == name)
  }

  lemma NextKeepsAnswersName(atStart: bool, s: System, step: Step, name: Name)
    requires Inv(atStart, s, name) && Enabled(s, step) && CalmStep(s, step, name)
    ensures AnswersName(Next(s, step), name)
  {
  }

  // The commit that creates the name is the first to answer for it.
  lemma NextKeepsCreatedOnce(atStart: bool, s: System, step: Step, name: Name)
    requires Inv(atStart, s, name) && Enabled(s, step) && CalmStep(s, step, name)
    ensures CreatedOnce(atStart, Next(s, step), name)
  {
    PresenceAfterStep(s, step, name);
    var s' := Next(s, step);
    if step.Commit? && s.callers[step.caller].name == name {
      assert !Present(s, name);
      assert CreatedIt(s', name, |s.answers|);
      assert forall i :: CreatedIt(s', name, i) && i < |s.answers| ==> CreatedIt(s, name, i);
    } else {
      assert forall i :: CreatedIt(s', name, i) <==> CreatedIt(s, name, i);
    }
  }

  lemma {:induction false} RunKeepsInv(atStart: bool, s: System, steps: seq<Step>, name: Name)
    requires Inv(atStart, s, name) && IsRun(s, steps) && Calm(s, steps, name)
    ensures Inv(atStart, After(s, steps), name)
    decreases |steps|
  {
    if |steps| > 0 {
      NextKeepsUnique(s, steps[0]);
      PresenceAfterStep(s, steps[0], name);
      NextKeepsAnswersName(atStart, s, steps[0], name);
      NextKeepsCreatedOnce(atStart, s, steps[0], name);
      RunKeepsInv(atStart, Next(s, steps[0]), steps[1..], name);
    }
  }

  ghost predicate TableOk(rows: map<Uuid, Name>) {
    forall a, b :: a in rows && b in rows && rows[a] == rows[b] ==> a == b
  }

  function Start(rows0: map<Uuid, Name>): System {
    System(rows0, map[], [])
  }

  // However the calls interleave, with whatever happens to other names: all answers for one name give
  // one id, the row's; at most one of them says created, and, once any call has answered, one does
  // exactly if the name was not there before.
  lemma CallersAgree(rows0: map<Uuid, Name>, steps: seq<Step>, name: Name)
    requires TableOk(rows0) && IsRun(Start(rows0), steps) && Calm(Start(rows0), steps, name)
    ensures var s := After(Start(rows0), steps);
            && (forall i, j :: 0 <= i < |s.answers| && 0 <= j < |s.answers|
                               && s.answers[i].name == name && s.answers[j].name == name ==>
                  s.answers[i].id == s.answers[j].id)
            && (forall i, j :: CreatedIt(s, name, i) && CreatedIt(s, name, j) ==> i == j)
            && ((exists i :: 0 <= i < |s.answers| && s.answers[i].name == name) ==>
                  ((exists i :: CreatedIt(s, name, i)) <==> !Present(Start(rows0), name)))
  {
    RunKeepsInv(Present(Start(rows0), name), Start(rows0), steps, name);
  }

  // While nobody takes the name away, no SELECT for it comes back empty.
  lemma SelectAlwaysFinds(rows0: map<Uuid, Name>, steps: seq<Step>, c: nat, name: Name)
    requires TableOk(rows0) && IsRun(Start(rows0), steps) && Calm(Start(rows0), steps, name)
    ensures var s := After(Start(rows0), steps);
            c in s.callers && s.callers[c] == Conflicted(name) ==> !Enabled(s, SelectNothing(c))
  {
    RunKeepsInv(Present(Start(rows0), name), Start(rows0), steps, name);
  }

  // A deletion between a caller's two statements is enough: the call fails, although the name could
  // now be created.
  lemma DropBetweenStatements(s: System, c: nat, id: Uuid)
    requires UniqueNames(s) && id in s.rows && c in s.callers && s.callers[c] == Conflicted(s.rows[id])
    ensures IsRun(s, [Drop(id)]) && Enabled(After(s, [Drop(id)]), SelectNothing(c))
  {
    var name := s.rows[id];
    assert IsRun(Next(s, Drop(id)), [Drop(id)][1..]);
    assert Present(s, name);
    assert TakesOf(s, [Drop(id)], name)[0];
    SelectComesBackEmptyIff(s, [Drop(id)], c, name);
  }
}
