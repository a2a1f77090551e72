// MediaService.Create and Delete (internal/service/media_service.go) keep files and rows in step
// without a distributed transaction: save the file, insert the row, delete the file again if the
// insert fails; delete the row, then the file. Any number of requests interleave; any storage or
// database call may fail, and a request may die between calls.
module MediaSaga {
  import opened Common
  import opened Counting

  type Path = string

  // Where a request stands between its storage and database calls.
  datatype Phase =
    | Saved(path: Path)        // Create: file stored, row not yet inserted
    | Compensating(path: Path) // Create: insert failed, file to be deleted
    | Unlinked(path: Path)     // Delete: row gone, file to be deleted

  // seen and leaked are history: every path Save ever returned, and the paths of files a failed
  // cleanup or a crash left behind.
  datatype System = System(
    files: set<Path>,
    rows: map<Uuid, Path>,
    requests: map<nat, Phase>,
    seen: set<Path>,
    leaked: set<Path>)

  datatype Step =
    | Save(request: nat, path: Path)
    | SaveFails(request: nat)
    | Insert(request: nat, id: Uuid)
    | InsertFails(request: nat)
    | DeleteRow(request: nat, id: Uuid)
    | DeleteMissing(request: nat, id: Uuid)
    | DeleteFile(request: nat)
    | DeleteFileFails(request: nat)
    | Crash(request: nat)

  function Init(): System {
    System({}, map[], map[], {}, {})
  }

  // Save returns a path no earlier Save returned; the primary key is fresh.
  predicate Enabled(s: System, step: Step) {
    match step
    case Save(r, path) => r !in s.requests && path !in s.seen
    case SaveFails(r) => r !in s.requests
    case Insert(r, id) => r in s.requests && s.requests[r].Saved? && id !in s.rows
    case InsertFails(r) => r in s.requests && s.requests[r].Saved?
    case DeleteRow(r, id) => r !in s.requests && id in s.rows
    case DeleteMissing(r, id) => r !in s.requests && id !in s.rows
    case DeleteFile(r) => r in s.requests && !s.requests[r].Saved?
    case DeleteFileFails(r) => r in s.requests && !s.requests[r].Saved?
    case Crash(r) => r in s.requests
  }

  // The steps that leave a file behind.
  predicate Leaks(step: Step) {
    step.DeleteFileFails? || step.Crash?
  }

  function Next(s: System, step: Step): System
    requires Enabled(s, step)
  {
    match step
    case Save(r, path) =>
      s.(files := s.files + {path}, seen := s.seen + {path}, requests := s.requests[r := Saved(path)])
    case SaveFails(_) => s
    case Insert(r, id) => s.(rows := s.rows[id := s.requests[r].path], requests := s.requests - {r})
    case InsertFails(r) => s.(requests := s.requests[r := Compensating(s.requests[r].path)])
    case DeleteRow(r, id) => s.(rows := s.rows - {id}, requests := s.requests[r := Unlinked(s.rows[id])])
    case DeleteMissing(_, _) => s
    case DeleteFile(r) => s.(files := s.files - {s.requests[r].path}, requests := s.requests - {r})
    case DeleteFileFails(r) => s.(leaked := s.leaked + {s.requests[r].path}, requests := s.requests - {r})
    case Crash(r) => s.(leaked := s.leaked + {s.requests[r].path}, requests := s.requests - {r})
  }

  ghost predicate IsRun(s: System, steps: seq<Step>)
    decreases |steps|
  {
    |steps| == 0 || (Enabled(s, steps[0]) && IsRun(Next(s, steps[0]), steps[1..]))
  }

  ghost function After(s: System, steps: seq<Step>): System
    requires IsRun(s, steps)
    decreases |steps|
  {
    if |steps| == 0 then s else After(Next(s, steps[0]), steps[1..])
  }

  function RowFiles(s: System): set<Path> {
    s.rows.Values
  }

  function Paths(requests: map<nat, Phase>): map<nat, Path> {
    map r | r in requests :: requests[r].path
  }

  function InFlight(s: System): set<Path> {
    Paths(s.requests).Values
  }

  // ---- Invariant ----

  // Every stored file is accounted for exactly once.
  ghost predicate Inv(s: System) {
    && s.files == RowFiles(s) + InFlight(s) + s.leaked
    && RowFiles(s) !! InFlight(s) && RowFiles(s) !! s.leaked && InFlight(s) !! s.leaked
    && Injective(s.rows)
    && Injective(Paths(s.requests))
    && s.files <= s.seen
  }

  // A request ends: its path leaves the in-flight set.
  lemma EndRequest(s: System, r: nat)
    requires Inv(s) && r in s.requests
    ensures s.requests[r].path in InFlight(s)
    ensures var after := Paths(s.requests - {r});
            after.Values == InFlight(s) - {s.requests[r].path} && Injective(after)
  {
    assert Paths(s.requests - {r}) == Paths(s.requests) - {r};
    assert r in Paths(s.requests);
    RemoveOne(Paths(s.requests), r);
  }

  lemma BeginRequest(s: System, r: nat, phase: Phase)
    requires Inv(s) && r !in s.requests && phase.path !in InFlight(s)
    ensures var after := Paths(s.requests[r := phase]);
            after.Values == InFlight(s) + {phase.path} && Injective(after)
  {
    assert Paths(s.requests[r := phase]) == Paths(s.requests)[r := phase.path];
    AddOne(Paths(s.requests), r, phase.path);
  }

  lemma NextKeepsInv(s: System, step: Step)
    requires Inv(s) && Enabled(s, step)
    ensures Inv(Next(s, step))
  {
    match step
    case Save(r, path) => BeginRequest(s, r, Saved(path));
    case Insert(r, id) =>
      EndRequest(s, r);
      AddOne(s.rows, id, s.requests[r].path);
    case InsertFails(r) =>
      assert Paths(Next(s, step).requests) == Paths(s.requests);
    case DeleteRow(r, id) =>
      assert s.rows[id] in RowFiles(s);
      BeginRequest(s, r, Unlinked(s.rows[id]));
      RemoveOne(s.rows, id);
    case DeleteFile(r) => EndRequest(s, r);
    case DeleteFileFails(r) => EndRequest(s, r);
    case Crash(r) => EndRequest(s, r);
    case _ =>
  }

  lemma {:induction false} RunKeepsInv(s: System, steps: seq<Step>)
    requires Inv(s) && IsRun(s, steps)
    ensures Inv(After(s, steps))
    ensures (forall i :: 0 <= i < |steps| ==> !Leaks(steps[i])) ==> After(s, steps).leaked == s.leaked
    decreases |steps|
  {
    if |steps| > 0 {
      NextKeepsInv(s, steps[0]);
      RunKeepsInv(Next(s, steps[0]), steps[1..]);
    }
  }

  // In every interleaving: a row's file is there, no two rows share a path, and the stored files
  // are exactly the row files, the files of requests under way and the recorded leaks, disjointly.
  lemma ReachableStates(steps: seq<Step>)
    requires IsRun(Init(), steps)
    ensures var s := After(Init(), steps);
            && (forall id :: id in s.rows ==> s.rows[id] in s.files)
            && (forall a, b :: a in s.rows && b in s.rows && a != b ==> s.rows[a] != s.rows[b])
            && s.files == RowFiles(s) + InFlight(s) + s.leaked
            && RowFiles(s) !! InFlight(s) !! s.leaked
  {
    RunKeepsInv(Init(), steps);
    var s := After(Init(), steps);
    forall id | id in s.rows
      ensures s.rows[id] in s.files
    {
      assert s.rows[id] in RowFiles(s);
    }
  }

  // Once all requests have finished, if no file deletion failed and no request died, the storage
  // holds exactly the files of the rows: nothing orphaned, nothing missing.
  lemma QuiescentStates(steps: seq<Step>)
    requires IsRun(Init(), steps) && After(Init(), steps).requests == map[]
    requires forall i :: 0 <= i < |steps| ==> !Leaks(steps[i])
    ensures var s := After(Init(), steps); s.files == RowFiles(s) && |s.files| == |s.rows|
  {
    RunKeepsInv(Init(), steps);
    var s := After(Init(), steps);
    assert InFlight(s) == {};
    ImageSize(s.rows);
  }

  // ---- One request, undisturbed ----

  // The calls of Create, by how the storage and the database answer.
  function CreateSteps(r: nat, path: Path, id: nat, saveOk: bool, insertOk: bool, cleanupOk: bool): seq<Step> {
    if !saveOk then [SaveFails(r)]
    else if insertOk then [Save(r, path), Insert(r, id)]
    else [Save(r, path), InsertFails(r), if cleanupOk then DeleteFile(r) else DeleteFileFails(r)]
  }

  function DeleteSteps(r: nat, id: nat, found: bool, deleteOk: bool): seq<Step> {
    if !found then [DeleteMissing(r, id)]
    else [DeleteRow(r, id), if deleteOk then DeleteFile(r) else DeleteFileFails(r)]
  }

  lemma StepThen(s: System, first: Step, rest: seq<Step>)
    requires Enabled(s, first) && IsRun(Next(s, first), rest)
    ensures IsRun(s, [first] + rest) && After(s, [first] + rest) == After(Next(s, first), rest)
  {
    assert ([first] + rest)[1..] == rest;
  }

  // A create leaves a row with its file, or neither, or, when the cleanup fails too, one recorded leak.
  lemma CreateIsARun(s: System, r: nat, path: Path, id: nat, saveOk: bool, insertOk: bool, cleanupOk: bool)
    requires Inv(s) && r !in s.requests && path !in s.seen && id !in s.rows
    ensures var steps := CreateSteps(r, path, id, saveOk, insertOk, cleanupOk);
            && IsRun(s, steps)
            && After(s, steps).requests == s.requests
            && After(s, steps).rows == (if saveOk && insertOk then s.rows[id := path] else s.rows)
            && After(s, steps).files == s.files + (if saveOk && (insertOk || !cleanupOk) then {path} else {})
            && After(s, steps).leaked == s.leaked + (if saveOk && !insertOk && !cleanupOk then {path} else {})
  {
    if saveOk {
      var s1 := Next(s, Save(r, path));
      assert s1.requests - {r} == s.requests;
      assert path !in s.files;
      if insertOk {
        StepThen(s1, Insert(r, id), []);
        StepThen(s, Save(r, path), [Insert(r, id)]);
      } else {
        var last := if cleanupOk then DeleteFile(r) else DeleteFileFails(r);
        var s2 := Next(s1, InsertFails(r));
        assert s2.requests - {r} == s.requests;
        StepThen(s2, last, []);
        StepThen(s1, InsertFails(r), [last]);
        StepThen(s, Save(r, path), [InsertFails(r), last]);
        assert [Save(r, path)] + [InsertFails(r), last] == CreateSteps(r, path, id, saveOk, insertOk, cleanupOk);
        assert [InsertFails(r)] + [last] == [InsertFails(r), last];
      }
    } else {
      StepThen(s, SaveFails(r), []);
    }
  }

  lemma DeleteIsARun(s: System, r: nat, id: nat, deleteOk: bool)
    requires Inv(s) && r !in s.requests
    ensures var steps := DeleteSteps(r, id, id in s.rows, deleteOk);
            && IsRun(s, steps)
            && After(s, steps).requests == s.requests
            && After(s, steps).rows == s.rows - {id}
            && After(s, steps).files == (if id in s.rows && deleteOk then s.files - {s.rows[id]} else s.files)
            && After(s, steps).leaked == s.leaked + (if id in s.rows && !deleteOk then {s.rows[id]} else {})
  {
    if id in s.rows {
      var last := if deleteOk then DeleteFile(r) else DeleteFileFails(r);
      var s1 := Next(s, DeleteRow(r, id));
      assert s1.requests - {r} == s.requests;
      StepThen(s1, last, []);
      StepThen(s, DeleteRow(r, id), [last]);
    } else {
      StepThen(s, DeleteMissing(r, id), []);
      assert s.rows - {id} == s.rows;
    }
  }
}
