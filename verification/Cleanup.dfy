/**
 The removal of orphaned directories runs in the background, with valid keys that were read before
 (internal/controller/server.go, internal/worker/server.go). What happens to the table in between decides
 whether it removes a directory that is needed.
 */
module Cleanup {
  import opened Wrappers
  import opened Reports
  import opened Tables
  import opened Protocol
  import opened Histories
  import opened DownloadSteps
  import opened Startup
  import Events

  predicate Needs(j: Job, n: NodeId) {
    Assigned(j, n) && j.status != Failed
  }

  lemma ValidKeysAre(jobs: Jobs, n: NodeId, key: string)
    ensures key in ValidKeys(jobs, n) <==> exists id :: id in jobs && Needs(jobs[id], n) && jobs[id].storageKey == key
  {
  }

  /** Every job of the node that is not failed and had its directory still has it. */
  ghost predicate Spares(jobs: Jobs, n: NodeId, paths: seq<string>, before: Dirs, after: Dirs) {
    forall id :: id in jobs && Needs(jobs[id], n) && jobs[id].storageKey in DiskKeys(before, paths) ==>
      jobs[id].storageKey in DiskKeys(after, paths)
  }

  // ---------- Which statements make a key valid ----------

  /** The statement makes the node need the directory of a job that it did not need. */
  predicate BringsRow(u: Update, id: JobId, j: Job, n: NodeId) {
    match u
    case ResetJob(target, node, _) => id == target && node == n && Reusable(j)
    case UpdateJobStatus(target, status, _, _, _) => id == target && Assigned(j, n) && status != Failed
    case BatchUpdateJobProgress(chosen) => id in chosen && Assigned(j, n)
    case BatchCompleteJobs(chosen, _) => id in chosen && Assigned(j, n)
    case _ => false
  }

  /** A job of the key is created on the node, reset to it, or revived from failed there. */
  ghost predicate Brings(s: Db, a: Action, n: NodeId, key: string) {
    && Admissible(s, a)
    && match a
       case CreateJob(_, row, _, _) => row.node == n && row.storageKey == key
       case UpdateJobs(u) =>
         && !(u.BatchCompleteJobs? && SizeUnknown(s.jobs, u.chosen))
         && exists id :: id in s.jobs && s.jobs[id].storageKey == key && BringsRow(u, id, s.jobs[id], n)
       case _ => false
  }

  lemma BringsRowExactly(u: Update, id: JobId, j: Job, n: NodeId)
    requires !Needs(j, n)
    ensures Needs(Exec(u, id, j), n) <==> BringsRow(u, id, j, n)
  {
  }

  lemma UpdateBringsExactly(s: Db, u: Update, n: NodeId, key: string)
    requires key !in ValidKeys(s.jobs, n)
    ensures key in ValidKeys(Next(s, UpdateJobs(u)).jobs, n) <==> Brings(s, UpdateJobs(u), n, key)
  {
    hide Exec, BringsRow, Needs, ValidKeys, SizeUnknown;
    var a := UpdateJobs(u);
    var t := Next(s, a);
    ValidKeysAre(s.jobs, n, key);
    ValidKeysAre(t.jobs, n, key);
    if Admissible(s, a) && !(u.BatchCompleteJobs? && SizeUnknown(s.jobs, u.chosen)) {
      forall id | id in s.jobs && s.jobs[id].storageKey == key
        ensures id in t.jobs && (Needs(t.jobs[id], n) <==> BringsRow(u, id, s.jobs[id], n))
      {
        BringsRowExactly(u, id, s.jobs[id], n);
      }
      forall id | id in s.jobs ensures t.jobs[id].storageKey == s.jobs[id].storageKey {
        ExecKeeps(u, id, s.jobs[id]);
      }
    }
  }

  lemma CreateBringsExactly(s: Db, a: Action, n: NodeId, key: string)
    requires key !in ValidKeys(s.jobs, n) && a.CreateJob?
    ensures key in ValidKeys(Next(s, a).jobs, n) <==> Brings(s, a, n, key)
  {
    hide ValidKeys;
    ValidKeysAre(s.jobs, n, key);
    ValidKeysAre(Next(s, a).jobs, n, key);
    if Brings(s, a, n, key) {
      assert Needs(Next(s, a).jobs[a.id], n);
    }
  }

  lemma OthersBringNothing(s: Db, a: Action, n: NodeId, key: string)
    requires key !in ValidKeys(s.jobs, n) && !a.CreateJob? && !a.UpdateJobs?
    ensures key !in ValidKeys(Next(s, a).jobs, n)
  {
    hide Rewritten;
    var t := Next(s, a);
    forall id | id in t.jobs && Needs(t.jobs[id], n) ensures t.jobs[id].storageKey != key {
      assert id in s.jobs && Needs(s.jobs[id], n) && s.jobs[id].storageKey == t.jobs[id].storageKey;
    }
  }

  /** One statement makes a key valid for the node if and only if it brings it. */
  lemma BringsExactly(s: Db, a: Action, n: NodeId, key: string)
    requires key !in ValidKeys(s.jobs, n)
    ensures key in ValidKeys(Next(s, a).jobs, n) <==> Brings(s, a, n, key)
  {
    hide ValidKeys, Next, Brings;
    if a.CreateJob? {
      CreateBringsExactly(s, a, n, key);
    } else if a.UpdateJobs? {
      UpdateBringsExactly(s, a.update, n, key);
    } else {
      OthersBringNothing(s, a, n, key);
      assert !Brings(s, a, n, key) by { OnlyRowsBring(s, a, n, key); }
    }
  }

  lemma OnlyRowsBring(s: Db, a: Action, n: NodeId, key: string)
    requires !a.CreateJob? && !a.UpdateJobs?
    ensures !Brings(s, a, n, key)
  {
  }

  // ---------- Which statements take a key away ----------

  /** The statement ends the node's need for the directory of a job that it needs. */
  predicate TakesRow(u: Update, id: JobId, j: Job, n: NodeId) {
    match u
    case UpdateJobStatus(target, status, _, _, _) => id == target && status == Failed
    case FailJob(target, _) => id == target
    case ResetJob(target, node, _) => id == target && Reusable(j) && node != n
    case BatchFailJobs(chosen) => id in chosen
    case MarkNodeActiveJobsFailed(node) => node == n && Running(j)
    case FailNodeJobsForDeletion(node) => node == n
    case FailNodeInactiveJobsMissingKeys(node) => node == n && j.status == Inactive
    case CompleteUpload(target, _) => id == target
    case _ => false
  }

  /** The job of the key fails, moves to another node or to remote storage, or is deleted, or its node is. */
  ghost predicate Takes(s: Db, a: Action, n: NodeId, key: string) {
    && Admissible(s, a)
    && match a
       case UpdateJobs(u) => exists id :: id in s.jobs && s.jobs[id].storageKey == key && TakesRow(u, id, s.jobs[id], n)
       case DeleteNode(node) => node == n
       case DeleteJob(id) => id in s.jobs && s.jobs[id].storageKey == key
       case _ => false
  }

  lemma TakesRowExactly(u: Update, id: JobId, j: Job, n: NodeId)
    requires Needs(j, n)
    ensures !Needs(Exec(u, id, j), n) <==> TakesRow(u, id, j, n)
  {
  }

  lemma StepsKeepKeysUnique(s: Db, a: Action)
    requires KeysUnique(s.jobs)
    ensures KeysUnique(Next(s, a).jobs)
  {
    hide Exec, Rewritten;
    if a.UpdateJobs? {
      forall id | id in s.jobs ensures Next(s, a).jobs[id].storageKey == s.jobs[id].storageKey {
        ExecKeeps(a.update, id, s.jobs[id]);
      }
    }
  }

  lemma JobOfKey(jobs: Jobs, n: NodeId, key: string) returns (id: JobId)
    requires KeysUnique(jobs) && key in ValidKeys(jobs, n)
    ensures id in jobs && jobs[id].storageKey == key && Needs(jobs[id], n)
    ensures forall k :: k in jobs && jobs[k].storageKey == key ==> k == id
  {
    id :| id in jobs && Needs(jobs[id], n) && jobs[id].storageKey == key;
  }

  /** A valid key stays valid exactly if the need for its one job does. */
  lemma ValidByJob(jobs: Jobs, after: Jobs, n: NodeId, key: string, id: JobId)
    requires forall k :: k in after && after[k].storageKey == key ==> k == id
    requires id in after ==> after[id].storageKey == key
    ensures key in ValidKeys(after, n) <==> id in after && Needs(after[id], n)
  {
  }

  lemma UpdateTakesExactly(s: Db, u: Update, n: NodeId, key: string)
    requires KeysUnique(s.jobs) && key in ValidKeys(s.jobs, n)
    ensures key !in ValidKeys(Next(s, UpdateJobs(u)).jobs, n) <==> Takes(s, UpdateJobs(u), n, key)
  {
    hide Exec, TakesRow, Needs, ValidKeys, SizeUnknown, KeysUnique;
    var a := UpdateJobs(u);
    var t := Next(s, a);
    var id := JobOfKey(s.jobs, n, key);
    TakesRowExactly(u, id, s.jobs[id], n);
    if Admissible(s, a) && !(u.BatchCompleteJobs? && SizeUnknown(s.jobs, u.chosen)) {
      forall k | k in s.jobs ensures k in t.jobs && t.jobs[k].storageKey == s.jobs[k].storageKey {
        ExecKeeps(u, k, s.jobs[k]);
      }
      ValidByJob(s.jobs, t.jobs, n, key, id);
    } else if Admissible(s, a) {
      CompletionsTakeNothing(u, id, s.jobs[id], n);
    }
  }

  lemma CompletionsTakeNothing(u: Update, id: JobId, j: Job, n: NodeId)
    requires u.BatchCompleteJobs?
    ensures !TakesRow(u, id, j, n)
  {
  }

  lemma OtherTakesExactly(s: Db, a: Action, n: NodeId, key: string)
    requires KeysUnique(s.jobs) && key in ValidKeys(s.jobs, n) && !a.UpdateJobs?
    ensures key !in ValidKeys(Next(s, a).jobs, n) <==> Takes(s, a, n, key)
  {
    hide ValidKeys, KeysUnique, Rewritten;
    var t := Next(s, a);
    var id := JobOfKey(s.jobs, n, key);
    ValidByJob(s.jobs, t.jobs, n, key, id);
  }

  /** One statement makes a valid key invalid for the node if and only if it takes it away. */
  lemma TakesExactly(s: Db, a: Action, n: NodeId, key: string)
    requires KeysUnique(s.jobs) && key in ValidKeys(s.jobs, n)
    ensures key !in ValidKeys(Next(s, a).jobs, n) <==> Takes(s, a, n, key)
  {
    hide ValidKeys, Next, Takes, KeysUnique;
    if a.UpdateJobs? {
      UpdateTakesExactly(s, a.update, n, key);
    } else {
      OtherTakesExactly(s, a, n, key);
    }
  }

  // ---------- Runs of statements ----------

  /** Step i brings the key and no later step takes it away. */
  ghost predicate ArrivesAt(s: Db, actions: seq<Action>, i: nat, n: NodeId, key: string)
    requires i < |actions|
  {
    && Brings(StateAt(s, actions, i), actions[i], n, key)
    && forall k :: i < k < |actions| ==> !Takes(StateAt(s, actions, k), actions[k], n, key)
  }

  lemma {:induction false} RunKeepsKeysUnique(s: Db, actions: seq<Action>)
    requires KeysUnique(s.jobs)
    ensures KeysUnique(Run(s, actions).jobs)
    decreases |actions|
  {
    hide Next, KeysUnique;
    if actions != [] {
      StepsKeepKeysUnique(s, actions[0]);
      RunKeepsKeysUnique(Next(s, actions[0]), actions[1..]);
    }
  }

  /** A shorter run passes through the same states. */
  lemma SameStates(s: Db, actions: seq<Action>, last: nat)
    requires last < |actions|
    ensures forall k :: 0 <= k <= last ==> StateAt(s, actions[..last], k) == StateAt(s, actions, k)
  {
    forall k | 0 <= k <= last ensures StateAt(s, actions[..last], k) == StateAt(s, actions, k) {
      assert actions[..last][..k] == actions[..k];
    }
  }

  lemma ArrivalLast(s: Db, actions: seq<Action>, i: nat, last: nat, n: NodeId, key: string)
    requires |actions| == last + 1 && i < last
    ensures ArrivesAt(s, actions, i, n, key)
       <==> ArrivesAt(s, actions[..last], i, n, key) && !Takes(StateAt(s, actions, last), actions[last], n, key)
  {
    hide Brings, Takes, StateAt;
    SameStates(s, actions, last);
  }

  /**
   A key that was not valid before a run is valid after it if and only if some step of the run brought it and
   no later step took it away.
   */
  lemma {:induction false} ArrivesExactly(s: Db, actions: seq<Action>, n: NodeId, key: string)
    requires KeysUnique(s.jobs) && key !in ValidKeys(s.jobs, n)
    ensures key in ValidKeys(Run(s, actions).jobs, n)
       <==> exists i :: 0 <= i < |actions| && ArrivesAt(s, actions, i, n, key)
    decreases |actions|
  {
    hide ValidKeys, Next, Run, ArrivesAt, KeysUnique;
    if actions == [] {
      assert Run(s, actions) == s by { RunNothing(s); }
    } else {
      var last := |actions| - 1;
      var before, a := actions[..last], actions[last];
      var t := Run(s, before);
      assert actions == before + [a];
      RunThen(s, before, a);
      RunKeepsKeysUnique(s, before);
      ArrivesExactly(s, before, n, key);
      forall i | 0 <= i < last
        ensures ArrivesAt(s, actions, i, n, key) <==> ArrivesAt(s, before, i, n, key) && !Takes(t, a, n, key)
      {
        ArrivalLast(s, actions, i, last, n, key);
      }
      assert ArrivesAt(s, actions, last, n, key) <==> Brings(t, a, n, key) by { LastArrival(s, actions, last, n, key); }
      hide Brings, Takes;
      if key in ValidKeys(t.jobs, n) {
        TakesExactly(t, a, n, key);
        if Brings(t, a, n, key) {
        }
      } else {
        BringsExactly(t, a, n, key);
      }
    }
  }

  lemma LastArrival(s: Db, actions: seq<Action>, last: nat, n: NodeId, key: string)
    requires |actions| == last + 1
    ensures ArrivesAt(s, actions, last, n, key) <==> Brings(Run(s, actions[..last]), actions[last], n, key)
  {
  }

  // ---------- Runs of entry points ----------

  /** The statements of a run of entry points. */
  function Statements(s: Db, events: seq<Events.Event>): seq<Action>
    decreases |events|
  {
    if events == [] then [] else Events.Plan(s, events[0]) + Statements(Events.After(s, events[0]), events[1..])
  }

  lemma {:induction false} PlayIsRun(s: Db, events: seq<Events.Event>)
    ensures Events.Play(s, events) == Run(s, Statements(s, events))
    decreases |events|
  {
    hide Events.Plan;
    if events == [] {
      RunNothing(s);
    } else {
      PlayIsRun(Events.After(s, events[0]), events[1..]);
      RunConcat(s, Events.Plan(s, events[0]), Statements(Events.After(s, events[0]), events[1..]));
    }
  }

  /** The run brings a key to stay whose directory is on disk and that was not valid when the keys were read. */
  ghost predicate NewlyNeeded(s: Db, actions: seq<Action>, n: NodeId, disk: set<string>) {
    exists key, i :: key in disk && key !in ValidKeys(s.jobs, n) && 0 <= i < |actions| && ArrivesAt(s, actions, i, n, key)
  }

  /**
   The valid keys are read in s, then entry points run, then the directories are removed. Every directory
   that the table needs by then is spared if and only if no statement of the run brought the node a job whose
   directory is on disk and whose key was not valid in s, without a later one taking it away.
   */
  lemma LateCleanupExactly(s: Db, events: seq<Events.Event>, n: NodeId, dirs: Dirs, paths: seq<string>)
    requires KeysUnique(s.jobs)
    ensures Spares(Events.Play(s, events).jobs, n, paths, dirs, Cleaned(dirs, paths, ValidKeys(s.jobs, n)))
       <==> !NewlyNeeded(s, Statements(s, events), n, DiskKeys(dirs, paths))
  {
    hide ValidKeys, DiskKeys, Cleaned, Statements, Events.Play, ArrivesAt, Run, Needs, KeysUnique;
    var t, actions, disk := Events.Play(s, events), Statements(s, events), DiskKeys(dirs, paths);
    PlayIsRun(s, events);
    CleanedKeys(dirs, paths, ValidKeys(s.jobs, n));
    forall key ensures key in ValidKeys(t.jobs, n)
                  <==> exists id :: id in t.jobs && Needs(t.jobs[id], n) && t.jobs[id].storageKey == key
    {
      ValidKeysAre(t.jobs, n, key);
    }
    forall key | key !in ValidKeys(s.jobs, n)
      ensures key in ValidKeys(t.jobs, n) <==> exists i :: 0 <= i < |actions| && ArrivesAt(s, actions, i, n, key)
    {
      ArrivesExactly(s, actions, n, key);
    }
  }

  /** So a run that brings the node no key spares every directory. */
  lemma WithoutArrivalsAllIsSpared(s: Db, events: seq<Events.Event>, n: NodeId, dirs: Dirs, paths: seq<string>)
    requires KeysUnique(s.jobs)
    requires var actions := Statements(s, events);
             forall i, key :: 0 <= i < |actions| ==> !Brings(StateAt(s, actions, i), actions[i], n, key)
    ensures Spares(Events.Play(s, events).jobs, n, paths, dirs, Cleaned(dirs, paths, ValidKeys(s.jobs, n)))
  {
    hide Spares, Statements, Events.Play, Brings, Takes, StateAt;
    LateCleanupExactly(s, events, n, dirs, paths);
  }

  // ---------- One Add in between ----------

  /** Add leaves the node a job of the key that is not failed: it prepared the job there, and was not refused. */
  ghost predicate AddBrings(s: Db, req: Request, c: Circumstances, a: Adding, n: NodeId) {
    && c.selected == Some(n) && a.actions != [] && Prepares(s, a.actions[0], req.storageKey)
    && (a.dispatched ==> c.dispatch.Accepted?)
  }

  /** After an Add in between, the node needs a directory that it did not need before exactly under these circumstances. */
  lemma AddBringsExactly(s: Db, req: Request, c: Circumstances, a: Adding, n: NodeId)
    requires Inv(s) && IsAdd(s, req, c, a) && req.storageKey !in ValidKeys(s.jobs, n)
    ensures req.storageKey in ValidKeys(Run(s, a.actions).jobs, n) <==> AddBrings(s, req, c, a, n)
  {
    hide ValidKeys, Inv, Next;
    var job: Option<JobId>, mine: Option<DownloadId> :| IsJobOf(s.jobs, req.storageKey, job)
      && (job.Some? ==> IsDownloadOf(s.downloads, req.user, job.value, mine)) && a == AddWith(s, req, c, job, mine);
    if a.actions == [] {
      RunNothing(s);
    } else if a.actions[0].CreateDownload? {
      RunOne(s, a.actions[0]);
      OthersBringNothing(s, a.actions[0], n, req.storageKey);
    } else if a.actions[0].CreateJob? {
      assert KeysUnique(s.jobs) by { UniqueKeys(s); }
      CreatingBrings(s, req, c, a, n);
    } else {
      ResettingBrings(s, req, c, a, job.value, n);
    }
  }

  lemma CreatingBrings(s: Db, req: Request, c: Circumstances, a: Adding, n: NodeId)
    requires KeysUnique(s.jobs) && req.storageKey !in ValidKeys(s.jobs, n) && c.selected.Some?
    requires |a.actions| >= 1 && a.actions[0] == CreateJob(c.newJob,
               NewJob(c.selected.value, req.engine, req.url, req.storageKey, req.name), c.newDownload, req.user)
    requires if Admissible(s, a.actions[0]) then a == Dispatched([a.actions[0]], c.newJob, c.newDownload, c.selected.value, c.dispatch)
             else a == Adding([a.actions[0]], false, Err(CannotCreate))
    ensures req.storageKey in ValidKeys(Run(s, a.actions).jobs, n) <==> AddBrings(s, req, c, a, n)
  {
    hide ValidKeys, Next;
    var create := a.actions[0];
    RunOne(s, create);
    BringsExactly(s, create, n, req.storageKey);
    if Admissible(s, create) {
      var t := Next(s, create);
      CreatedRow(s, create);
      assert KeysUnique(t.jobs) by { StepsKeepKeysUnique(s, create); }
      FinishBrings(t, c.newJob, c.dispatch, n);
      RunThen(s, [create], a.actions[1]);
    }
  }

  lemma UniqueKeys(s: Db)
    requires Inv(s)
    ensures KeysUnique(s.jobs)
  {
  }

  /** The statement that records the node's answer. */
  function Answering(id: JobId, d: Dispatch): Update {
    match d
    case Accepted(gid, location) => UpdateJobStatus(id, Active, gid, "", location)
    case Refused(error) => UpdateJobStatus(id, Failed, "", if error == "" then "node rejected job" else error, "")
  }

  lemma FinishBrings(t: Db, id: JobId, d: Dispatch, n: NodeId)
    requires KeysUnique(t.jobs) && id in t.jobs
    ensures var u := Next(t, UpdateJobs(Answering(id, d)));
            t.jobs[id].storageKey in ValidKeys(u.jobs, n) <==> Assigned(t.jobs[id], n) && d.Accepted?
  {
    hide ValidKeys, KeysUnique;
    var answer := Answering(id, d);
    var u := Next(t, UpdateJobs(answer));
    var key := t.jobs[id].storageKey;
    NextUpdate(t, answer);
    hide Next;
    assert u.jobs.Keys == t.jobs.Keys;
    assert forall k :: k in t.jobs && k != id ==> u.jobs[k] == t.jobs[k];
    assert Needs(u.jobs[id], n) <==> Assigned(t.jobs[id], n) && d.Accepted?;
    assert u.jobs[id].storageKey == key;
    OnlyJobOfKey(t.jobs, id);
    ValidKeysAre(u.jobs, n, key);
  }

  lemma OnlyJobOfKey(jobs: Jobs, id: JobId)
    requires KeysUnique(jobs) && id in jobs
    ensures forall k :: k in jobs && k != id ==> jobs[k].storageKey != jobs[id].storageKey
  {
  }

  lemma ResettingBrings(s: Db, req: Request, c: Circumstances, a: Adding, id: JobId, n: NodeId)
    requires Inv(s) && req.storageKey !in ValidKeys(s.jobs, n)
    requires c.selected.Some? && c.selected.value in s.nodes
    requires id in s.jobs && s.jobs[id].storageKey == req.storageKey && Reusable(s.jobs[id])
    requires var m := c.selected.value;
             var start := [UpdateJobs(ResetJob(id, m, req.url)), CreateDownload(c.newDownload, req.user, id)];
             a.actions == (if a.dispatched then start + [UpdateJobs(Answering(id, c.dispatch))] else start)
    ensures req.storageKey in ValidKeys(Run(s, a.actions).jobs, n) <==> AddBrings(s, req, c, a, n)
  {
    hide ValidKeys, Inv, RowsOk;
    var m := c.selected.value;
    var reset, link := UpdateJobs(ResetJob(id, m, req.url)), CreateDownload(c.newDownload, req.user, id);
    var r := Next(s, reset);
    var t := Next(r, link);
    assert id in r.jobs && r.jobs[id].nodeId == Some(m) && r.jobs[id].status != Failed && r.jobs[id].storageKey == req.storageKey by {
    }
    assert t.jobs == r.jobs;
    RunTwo(s, reset, link);
    assert KeysUnique(t.jobs) by { UniqueKeys(s); StepsKeepKeysUnique(s, reset); }
    hide Next;
    if a.dispatched {
      FinishBrings(t, id, c.dispatch, n);
      RunThen(s, [reset, link], UpdateJobs(Answering(id, c.dispatch)));
    } else {
      OnlyJobOfKey(t.jobs, id);
      ValidKeysAre(t.jobs, n, req.storageKey);
    }
  }

  /**
   A run that loses a directory: node "n" keeps the directory of an earlier attempt, the valid keys are read,
   an Add sends the job there again, and the cleanup removes the directory of the active job.
   */
  lemma AddLosesDirectory(key: string)
    requires IsKeyName(key)
    ensures var s := Db({1}, map["n" := Node(false, true)], map[], map[], map[]);
            var req := Request(1, "aria2", "u", key, "x");
            var c := Circumstances(Some("n"), true, 1, 1, Accepted("g", "file://aria2/" + key));
            var a := AddWith(s, req, c, None, None);
            var add := Events.Add(req, c, a);
            var dirs: Dirs := map["/aria2" := [Entry(key, true)]];
            var cleaned := Cleaned(dirs, ["/aria2"], ValidKeys(s.jobs, "n"));
            && Inv(s) && Events.Possible(s, add) && Events.Trusted(s, add)
            && key in ValidKeys(Events.Play(s, [add]).jobs, "n")
            && key in DiskKeys(dirs, ["/aria2"]) && key !in DiskKeys(cleaned, ["/aria2"])
            && !Spares(Events.Play(s, [add]).jobs, "n", ["/aria2"], dirs, cleaned)
  {
    hide DiskKeys, Cleaned, Spares, Inv;
    var s := Db({1}, map["n" := Node(false, true)], map[], map[], map[]);
    var req := Request(1, "aria2", "u", key, "x");
    var c := Circumstances(Some("n"), true, 1, 1, Accepted("g", "file://aria2/" + key));
    var a := AddWith(s, req, c, None, None);
    var add := Events.Add(req, c, a);
    var dirs: Dirs := map["/aria2" := [Entry(key, true)]];
    assert Inv(s) by { NoRows({1}, map["n" := Node(false, true)]); }
    assert IsJobOf(s.jobs, key, None);
    assert IsAdd(s, req, c, a);
    AddBringsExactly(s, req, c, a, "n");
    assert Events.Play(s, [add]) == Run(s, a.actions) by {
      assert [add][1..] == [];
      assert Events.Play(Events.After(s, add), []) == Events.After(s, add);
    }
    assert key in DiskKeys(dirs, ["/aria2"]) by { OneDirectory(key); }
    CleanedKeys(dirs, ["/aria2"], ValidKeys(s.jobs, "n"));
    Lost(Events.Play(s, [add]).jobs, "n", ["/aria2"], dirs, Cleaned(dirs, ["/aria2"], ValidKeys(s.jobs, "n")), key);
  }

  /** The state of the run above: one user has signed up and node "n" has registered. */
  lemma FirstState()
    ensures Events.Play(EMPTY, [Events.SignUp(1), Events.Register("n")])
         == Db({1}, map["n" := Node(false, true)], map[], map[], map[])
  {
    hide Apply;
    var events := [Events.SignUp(1), Events.Register("n")];
    var a, b := MarkNodeActiveJobsFailed("n"), ResetStuckUploads("n");
    var s := EMPTY.(users := {1});
    var t := s.(nodes := map["n" := Node(false, true)]);
    assert Next(EMPTY, InsertUser(1)) == s && Next(s, UpsertNode("n", false)) == t;
    RunOne(EMPTY, InsertUser(1));
    RunThree(s, UpsertNode("n", false), UpdateJobs(a), UpdateJobs(b));
    NextUpdate(t, a);
    NextUpdate(t, b);
    assert Apply(a, map[]) == map[] && Apply(b, map[]) == map[];
    assert events[1..] == [Events.Register("n")] && events[1..][1..] == [];
  }

  lemma NoRows(users: set<UserId>, nodes: map<NodeId, Node>)
    ensures Inv(Db(users, nodes, map[], map[], map[]))
  {
  }

  lemma OneDirectory(key: string)
    requires IsKeyName(key)
    ensures var dirs: Dirs := map["/aria2" := [Entry(key, true)]]; key in DiskKeys(dirs, ["/aria2"])
  {
    var dirs: Dirs := map["/aria2" := [Entry(key, true)]];
    assert [Entry(key, true)][0] in dirs["/aria2"] && "/aria2" in ["/aria2"];
    assert key in KeysIn(dirs["/aria2"]);
  }

  lemma Lost(jobs: Jobs, n: NodeId, paths: seq<string>, before: Dirs, after: Dirs, key: string)
    requires key in ValidKeys(jobs, n) && key in DiskKeys(before, paths) && key !in DiskKeys(after, paths)
    ensures !Spares(jobs, n, paths, before, after)
  {
    hide ValidKeys, DiskKeys;
    ValidKeysAre(jobs, n, key);
  }
}
