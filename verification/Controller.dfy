/**
 The controller's gRPC handlers (internal/controller/grpc/handlers.go), the reaper
 (internal/controller/server.go) and the admin deletion of a node
 (internal/controller/api/handlers/nodes.go), step by step over the database.
 */
module Controller {
  import opened Reports
  import opened Tables
  import opened Push
  import Events
  import opened Database

  // ---------- From columns back to reports ----------

  /** Each row carries what the progress statement uses of its report. */
  predicate SameProgress(row: StatusReport, u: StatusReport) {
    row == u.(state := StateActive, error := "")
  }

  predicate SameCompletion(row: StatusReport, u: StatusReport) {
    row.jobId == u.jobId && row.engineJobId == u.engineJobId && row.name == u.name && row.totalSize == u.totalSize
  }

  predicate SameFailure(row: StatusReport, u: StatusReport) {
    row.jobId == u.jobId && row.error == u.error
  }

  /** The chosen rows, as reports; `same` relates each row to its report. */
  lemma ChosenReports(picked: Chosen, rows: seq<StatusReport>, updates: seq<StatusReport>,
                      same: (StatusReport, StatusReport) -> bool)
    returns (chosen: Chosen)
    requires Unnested(picked, rows) && |rows| == |updates|
    requires forall i :: 0 <= i < |rows| ==> same(rows[i], updates[i]) && rows[i].jobId == updates[i].jobId
    ensures ChoiceOf(chosen, updates) && chosen.Keys == picked.Keys
    ensures forall id :: id in picked ==> same(picked[id], chosen[id])
  {
    hide Unnested;
    var index := RowOfEach(picked, rows);
    chosen := map id | id in picked :: updates[index[id]];
    assert forall id :: id in chosen ==> chosen[id] in updates && chosen[id].jobId == id && same(picked[id], chosen[id]);
  }

  lemma RowOfEach(picked: Chosen, rows: seq<StatusReport>) returns (index: map<JobId, nat>)
    requires Unnested(picked, rows)
    ensures index.Keys == picked.Keys && forall i :: 0 <= i < |rows| ==> rows[i].jobId in picked
    ensures forall id :: id in picked ==>
              index[id] < |rows| && picked[id] == rows[index[id]] && rows[index[id]].jobId == id
  {
    index := map id | id in picked ::
      var i :| 0 <= i < |rows| && picked[id] == rows[i] && rows[i].jobId == id; i;
  }

  lemma ProgressByReports(picked: Chosen, chosen: Chosen, jobs: Jobs)
    requires chosen.Keys == picked.Keys && forall id :: id in picked ==> SameProgress(picked[id], chosen[id])
    ensures Apply(BatchUpdateJobProgress(picked), jobs) == Apply(BatchUpdateJobProgress(chosen), jobs)
  {
    forall id | id in jobs && id in picked ensures Progressed(jobs[id], picked[id]) == Progressed(jobs[id], chosen[id]) {
    }
  }

  lemma CompletionsByReports(picked: Chosen, chosen: Chosen, jobs: Jobs, uploadPending: bool)
    requires chosen.Keys == picked.Keys && forall id :: id in picked ==> SameCompletion(picked[id], chosen[id])
    ensures Apply(BatchCompleteJobs(picked, uploadPending), jobs) == Apply(BatchCompleteJobs(chosen, uploadPending), jobs)
  {
    forall id | id in jobs && id in picked
      ensures Finished(jobs[id], picked[id], uploadPending) == Finished(jobs[id], chosen[id], uploadPending)
      ensures FinalSize(jobs[id], picked[id]) == FinalSize(jobs[id], chosen[id])
    {
    }
    hide FinalSize, Finished;
    assert SizeUnknown(jobs, picked) <==> SizeUnknown(jobs, chosen);
  }

  lemma FailuresByReports(picked: Chosen, chosen: Chosen, jobs: Jobs)
    requires chosen.Keys == picked.Keys && forall id :: id in picked ==> SameFailure(picked[id], chosen[id])
    ensures Apply(BatchFailJobs(picked), jobs) == Apply(BatchFailJobs(chosen), jobs)
  {
    forall id | id in jobs && id in picked ensures FailedBy(jobs[id], picked[id]) == FailedBy(jobs[id], chosen[id]) {
    }
  }

  lemma ChosenFrom(chosen: Chosen, reports: seq<StatusReport>)
    requires ChoiceOf(chosen, reports)
    ensures forall id :: id in chosen ==> exists r :: r in reports && r.jobId == id
  {
  }

  lemma NothingToChoose()
    ensures ChoiceOf(map[], [])
  {
  }

  lemma NothingChosen(jobs: Jobs, uploadPending: bool)
    ensures Apply(BatchUpdateJobProgress(map[]), jobs) == jobs
    ensures Apply(BatchCompleteJobs(map[], uploadPending), jobs) == jobs
    ensures Apply(BatchFailJobs(map[]), jobs) == jobs
  {
  }

  lemma {:induction false} SelectTwice(reports: seq<StatusReport>, p: StatusReport -> bool, q: StatusReport -> bool)
    requires forall r :: q(r) ==> p(r)
    ensures Select(Select(reports, p), q) == Select(reports, q)
  {
    if reports != [] {
      var before, last := reports[..|reports| - 1], reports[|reports| - 1];
      assert reports == before + [last];
      SelectTwice(before, p, q);
      SelectLast(before, last, p);
      SelectLast(before, last, q);
      SelectLast(Select(before, p), last, q);
      assert Select(reports, p) == if p(last) then Select(before, p) + [last] else Select(before, p);
    }
  }

  lemma TerminalParts(reports: seq<StatusReport>)
    ensures CompletedOf(TerminalOf(reports)) == CompletedOf(reports)
    ensures FailedOf(TerminalOf(reports)) == FailedOf(reports)
  {
    hide Select;
    var terminal := (r: StatusReport) => Terminal(r.state);
    SelectTwice(reports, terminal, (r: StatusReport) => r.state == StateCompleted);
    SelectTwice(reports, terminal, (r: StatusReport) => r.state == StateFailed);
  }

  lemma NothingSelected()
    ensures CompletedOf([]) == [] && FailedOf([]) == []
  {
  }

  method SplitProgress(reports: seq<StatusReport>) returns (progress: seq<StatusReport>, terminal: seq<StatusReport>)
    ensures progress == ProgressOf(reports) && terminal == TerminalOf(reports)
  {
    progress, terminal := [], [];
    for i := 0 to |reports|
      invariant progress == ProgressOf(reports[..i]) && terminal == TerminalOf(reports[..i])
    {
      assert reports[..i + 1][..i] == reports[..i];
      match reports[i].state {
        case StateCompleted | StateFailed => terminal := terminal + [reports[i]];
        case _ => progress := progress + [reports[i]];
      }
    }
    assert reports[..|reports|] == reports;
  }

  method SplitTerminal(updates: seq<StatusReport>) returns (completed: seq<StatusReport>, failed: seq<StatusReport>)
    ensures completed == CompletedOf(updates) && failed == FailedOf(updates)
  {
    completed, failed := [], [];
    for i := 0 to |updates|
      invariant completed == CompletedOf(updates[..i]) && failed == FailedOf(updates[..i])
    {
      assert updates[..i + 1][..i] == updates[..i];
      match updates[i].state {
        case StateCompleted => completed := completed + [updates[i]];
        case StateFailed => failed := failed + [updates[i]];
        case _ =>
      }
    }
    assert updates[..|updates|] == updates;
  }

  lemma RunUpdates(s: Db, u: Update, v: Update, w: Update)
    requires !u.ResetJob? && !v.ResetJob? && !w.ResetJob?
    ensures Run(s, [UpdateJobs(u), UpdateJobs(v), UpdateJobs(w)]) == s.(jobs := Apply(w, Apply(v, Apply(u, s.jobs))))
  {
    hide Apply, Next;
    RunThree(s, UpdateJobs(u), UpdateJobs(v), UpdateJobs(w));
    NextUpdate(s, u);
    NextUpdate(s.(jobs := Apply(u, s.jobs)), v);
    NextUpdate(s.(jobs := Apply(v, Apply(u, s.jobs))), w);
  }

  /** A request to a node to remove the files of a failed job. */
  datatype Removal = Removal(engine: string, storageKey: string, engineJobId: string)

  class Server {
    const db: Database
    const uploadPending: bool  // the storage provider is not the local one
    var clients: set<NodeId>

    constructor (db: Database, remoteStorage: bool)
      ensures this.db == db && uploadPending == remoteStorage && clients == {}
    {
      this.db, uploadPending, clients := db, remoteStorage, {};
    }

    method Register(n: NodeId)
      modifies this, db
      ensures db.View() == Events.After(old(db.View()), Events.Register(n))
      ensures clients == old(clients) + {n}
    {
      var _ := db.Execute(UpsertNode(n, false));
      var _ := db.UpdateRows(MarkNodeActiveJobsFailed(n));
      var _ := db.UpdateRows(ResetStuckUploads(n));
      clients := clients + {n};
      RunThree(old(db.View()), UpsertNode(n, false), UpdateJobs(MarkNodeActiveJobsFailed(n)),
               UpdateJobs(ResetStuckUploads(n)));
    }

    method Deregister(n: NodeId)
      modifies this, db
      ensures db.View() == Events.After(old(db.View()), Events.Deregister(n))
      ensures clients == old(clients) - {n}
    {
      var _ := db.Execute(SetNodeOnline(n, false));
      MarkNodeJobsForOffline(db, n);
      clients := clients - {n};
      RunConcat(old(db.View()), [SetNodeOnline(n, false)], Events.JobsOffline(n));
      RunOne(old(db.View()), SetNodeOnline(n, false));
    }

    /** One ping; false when the node is unknown. */
    method Heartbeat(n: NodeId) returns (ok: bool)
      modifies this, db
      ensures db.View() == Events.After(old(db.View()), Events.Heartbeat(n, n in old(clients)))
      ensures ok <==> n in old(clients) || n in old(db.nodes)
      ensures clients == if ok then old(clients) + {n} else old(clients)
    {
      ghost var s := db.View();
      if n !in clients {
        if n !in db.nodes {
          return false;
        }
        clients := clients + {n};
        var _ := db.UpdateRows(RestoreNodeInactiveJobs(n));
      }
      var _ := db.Execute(SetNodeOnline(n, true));
      ok := true;
      RunTwo(s, UpdateJobs(RestoreNodeInactiveJobs(n)), SetNodeOnline(n, true));
      RunOne(s, SetNodeOnline(n, true));
    }

    method BatchUpdateProgress(updates: seq<StatusReport>) returns (ghost chosen: Chosen)
      modifies db`jobs
      ensures ChoiceOf(chosen, updates)
      ensures db.jobs == Apply(BatchUpdateJobProgress(chosen), old(db.jobs))
    {
      hide Apply, Unnested, ChoiceOf;
      var ids: seq<JobId>, progress: seq<real>, speed: seq<int>, downloaded: seq<int> := [], [], [], [];
      var names: seq<string>, sizes: seq<int>, engineJobIds: seq<string> := [], [], [];
      for i := 0 to |updates|
        invariant |ids| == |progress| == |speed| == |downloaded| == |names| == |sizes| == |engineJobIds| == i
        invariant forall k :: 0 <= k < i ==> ids[k] == updates[k].jobId && progress[k] == updates[k].progress
        invariant forall k :: 0 <= k < i ==> speed[k] == updates[k].speed && sizes[k] == updates[k].totalSize
        invariant forall k :: 0 <= k < i ==> downloaded[k] == updates[k].downloadedSize && names[k] == updates[k].name
        invariant forall k :: 0 <= k < i ==> engineJobIds[k] == updates[k].engineJobId
      {
        var u := updates[i];
        ids, progress, speed := ids + [u.jobId], progress + [u.progress], speed + [u.speed];
        downloaded, names := downloaded + [u.downloadedSize], names + [u.name];
        sizes, engineJobIds := sizes + [u.totalSize], engineJobIds + [u.engineJobId];
      }
      ghost var jobs := db.jobs;
      ghost var rows := ProgressRows(
        ids, progress, speed, downloaded, names, sizes, engineJobIds);
      ghost var picked := db.BatchUpdateJobProgress(
        ids, progress, speed, downloaded, names, sizes, engineJobIds);
      chosen := ChosenReports(picked, rows, updates, SameProgress);
      ProgressByReports(picked, chosen, jobs);
    }

    method BatchComplete(completed: seq<StatusReport>) returns (ghost chosen: Chosen)
      modifies db`jobs
      ensures ChoiceOf(chosen, completed)
      ensures db.jobs == Apply(BatchCompleteJobs(chosen, uploadPending), old(db.jobs))
    {
      hide Apply, Unnested, ChoiceOf;
      var ids: seq<JobId>, engineJobIds: seq<string>, names: seq<string>, sizes: seq<int> := [], [], [], [];
      for i := 0 to |completed|
        invariant |ids| == |engineJobIds| == |names| == |sizes| == i
        invariant forall k :: 0 <= k < i ==> ids[k] == completed[k].jobId && names[k] == completed[k].name
        invariant forall k :: 0 <= k < i ==>
          engineJobIds[k] == completed[k].engineJobId && sizes[k] == completed[k].totalSize
      {
        var u := completed[i];
        ids, engineJobIds := ids + [u.jobId], engineJobIds + [u.engineJobId];
        names, sizes := names + [u.name], sizes + [u.totalSize];
      }
      ghost var jobs := db.jobs;
      ghost var rows := CompletionRows(ids, engineJobIds, names, sizes);
      ghost var picked := db.BatchCompleteJobs(ids, engineJobIds, names, sizes, uploadPending);
      chosen := ChosenReports(picked, rows, completed, SameCompletion);
      CompletionsByReports(picked, chosen, jobs, uploadPending);
    }

    method BatchFail(failed: seq<StatusReport>) returns (hit: set<JobId>, ghost chosen: Chosen)
      modifies db`jobs
      ensures ChoiceOf(chosen, failed)
      ensures db.jobs == Apply(BatchFailJobs(chosen), old(db.jobs))
      ensures hit == chosen.Keys * db.jobs.Keys
    {
      hide Apply, Unnested, ChoiceOf;
      var ids: seq<JobId>, errors: seq<string> := [], [];
      for i := 0 to |failed|
        invariant |ids| == |errors| == i
        invariant forall k :: 0 <= k < i ==> ids[k] == failed[k].jobId && errors[k] == failed[k].error
      {
        ids, errors := ids + [failed[i].jobId], errors + [failed[i].error];
      }
      ghost var jobs, rows := db.jobs, FailureRows(ids, errors);
      ghost var picked;
      hit, picked := db.BatchFailJobs(ids, errors);
      chosen := ChosenReports(picked, rows, failed, SameFailure);
      FailuresByReports(picked, chosen, jobs);
    }

    /** The removals a connected node is asked for: the files of each failed job that exists. */
    method RemovalsFor(nodeId: NodeId, failed: seq<StatusReport>, hit: set<JobId>)
      returns (removals: map<JobId, Removal>)
      requires hit <= db.jobs.Keys && forall id :: id in hit ==> exists r :: r in failed && r.jobId == id
      ensures removals.Keys == if nodeId in clients then hit else {}
      ensures forall id :: id in removals ==>
                && removals[id].engine == db.jobs[id].engine && removals[id].storageKey == db.jobs[id].storageKey
                && exists r :: r in failed && r.jobId == id && removals[id].engineJobId == r.engineJobId
    {
      removals := map[];
      if nodeId in clients {
        var engineJobIds: map<JobId, string> := map[];
        for i := 0 to |failed|
          invariant forall k :: 0 <= k < i ==> failed[k].jobId in engineJobIds
          invariant forall id :: id in engineJobIds ==>
            exists r :: r in failed && r.jobId == id && engineJobIds[id] == r.engineJobId
        {
          engineJobIds := engineJobIds[failed[i].jobId := failed[i].engineJobId];
        }
        removals := map id | id in hit :: Removal(db.jobs[id].engine, db.jobs[id].storageKey, engineJobIds[id]);
      }
    }

    /** Batch completion, then batch failure, of terminal reports. */
    method BatchHandleTerminal(nodeId: NodeId, updates: seq<StatusReport>)
      returns (removals: map<JobId, Removal>, ghost c: Chosen, ghost f: Chosen)
      modifies db`jobs
      ensures ChoiceOf(c, CompletedOf(updates)) && ChoiceOf(f, FailedOf(updates))
      ensures db.jobs == Apply(BatchFailJobs(f), Apply(BatchCompleteJobs(c, uploadPending), old(db.jobs)))
      ensures removals.Keys == if nodeId in clients then f.Keys * db.jobs.Keys else {}
      ensures forall id :: id in removals ==>
                removals[id].engine == db.jobs[id].engine && removals[id].storageKey == db.jobs[id].storageKey
      ensures forall id :: id in removals ==>
                exists r :: r in FailedOf(updates) && r.jobId == id && removals[id].engineJobId == r.engineJobId
    {
      hide Apply, ChoiceOf;
      var completed, failed := SplitTerminal(updates);
      NothingToChoose();
      c, f, removals := map[], map[], map[];
      NothingChosen(db.jobs, uploadPending);
      if |completed| > 0 {
        c := BatchComplete(completed);
      }
      NothingChosen(db.jobs, uploadPending);
      if |failed| > 0 {
        var hit;
        hit, f := BatchFail(failed);
        ChosenFrom(f, failed);
        removals := RemovalsFor(nodeId, failed, hit);
      }
    }

    method PushJobStatuses(nodeId: NodeId, reports: seq<StatusReport>)
      returns (removals: map<JobId, Removal>, ghost e: Events.Event)
      modifies db`jobs
      ensures Pushed(old(db.jobs), reports, uploadPending, db.jobs)
      ensures e.PushJobStatuses? && e.uploadPending == uploadPending
      ensures ChoiceOf(e.progress, ProgressOf(reports)) && ChoiceOf(e.completed, CompletedOf(reports))
              && ChoiceOf(e.failed, FailedOf(reports))
      ensures db.View() == Events.After(old(db.View()), e)
      ensures removals.Keys == if nodeId in clients then e.failed.Keys * db.jobs.Keys else {}
      ensures forall id :: id in removals ==>
                removals[id].engine == db.jobs[id].engine && removals[id].storageKey == db.jobs[id].storageKey
      ensures forall id :: id in removals ==>
                exists r :: r in reports && r.state == StateFailed && r.jobId == id && removals[id].engineJobId == r.engineJobId
    {
      hide Apply, ChoiceOf, Next, Select;
      var progressUpdates, terminalUpdates := SplitProgress(reports);
      TerminalParts(reports);
      NothingToChoose();
      ghost var p: Chosen, c: Chosen, f: Chosen := map[], map[], map[];
      removals := map[];
      ghost var s := db.View();
      NothingChosen(db.jobs, uploadPending);
      if |progressUpdates| > 0 {
        p := BatchUpdateProgress(progressUpdates);
      }
      NothingChosen(db.jobs, uploadPending);
      if |terminalUpdates| > 0 {
        removals, c, f := BatchHandleTerminal(nodeId, terminalUpdates);
      } else {
        NothingSelected();
      }
      BatchIsPushed(s.jobs, reports, p, c, f, uploadPending);
      e := Events.PushJobStatuses(p, c, f, uploadPending);
      RunUpdates(s, BatchUpdateJobProgress(p), BatchCompleteJobs(c, uploadPending), BatchFailJobs(f));
    }

    /** What a worker reports about an upload: an error, or the remote URI. */
    method ReportUpload(id: JobId, remoteUri: string, error: string) returns (ok: bool)
      modifies db
      ensures db.View() == Events.After(old(db.View()),
                if error != "" then Events.UploadErred(id) else Events.UploadSucceeded(id, remoteUri))
      ensures ok <==> error != "" || id in old(db.jobs)
    {
      hide Next, Admissible, Run, Apply;
      ghost var s := db.View();
      assert Run(s, []) == s by { RunNothing(s); }
      CompletionKeepsKey(s, id, remoteUri);
      if error != "" {
        var _ := db.UpdateRows(SetUploadStatus(id, UploadFailed));
        RunOne(s, UpdateJobs(SetUploadStatus(id, UploadFailed)));
        return true;
      }
      if id !in db.jobs {
        return false;  // the statement returns no row
      }
      var _ := db.UpdateRows(CompleteUpload(id, remoteUri));
      var oldPrefix := db.jobs[id].engine + "/" + db.jobs[id].storageKey;
      var _ := db.Execute(RewriteLinks(id, oldPrefix, remoteUri));
      ok := true;
      RunTwo(s, UpdateJobs(CompleteUpload(id, remoteUri)), RewriteLinks(id, oldPrefix, remoteUri));
    }

    /** Claims the node's pending and failed uploads and returns them. */
    method ListPendingUploads(n: NodeId) returns (claimed: set<JobId>)
      modifies db`jobs
      ensures db.View() == Events.After(old(db.View()), Events.ListPendingUploads(n))
      ensures claimed == set id | id in old(db.jobs) && Claimable(old(db.jobs)[id], n)
      ensures forall id :: id in claimed ==> id in db.jobs && db.jobs[id].uploadStatus == Uploading
    {
      claimed := db.UpdateRows(ClaimPendingUploads(n));
      RunOne(old(db.View()), UpdateJobs(ClaimPendingUploads(n)));
    }

    /** The reaper's round, given the nodes whose heartbeats are too old. */
    method ReapStaleNodes(stale: seq<NodeId>, oldRows: set<JobId>) returns (ghost online: set<NodeId>)
      modifies db
      ensures db.View() == Events.After(old(db.View()), Events.Reap(stale, online, oldRows))
      ensures online == set n | n in old(db.nodes) && old(db.nodes)[n].isOnline && n !in stale
    {
      hide Next, Admissible, Run, Apply;
      ghost var s := db.View();
      assert Run(s, []) == s by { RunNothing(s); }
      for i := 0 to |stale|
        invariant db.View() == Run(s, Events.SetOffline(stale[..i]))
        invariant db.nodes.Keys == s.nodes.Keys
        invariant forall n :: n in s.nodes ==>
          db.nodes[n].isOnline == (s.nodes[n].isOnline && n !in stale[..i])
      {
        NodeGoesOffline(db.View(), stale[i]);
        var _ := db.Execute(SetNodeOnline(stale[i], false));
        assert stale[..i + 1][..i] == stale[..i];
        RunThen(s, Events.SetOffline(stale[..i]), SetNodeOnline(stale[i], false));
      }
      assert stale[..|stale|] == stale;
      ghost var t := db.View();
      assert Run(t, []) == t by { RunNothing(t); }
      for i := 0 to |stale|
        invariant db.View() == Run(t, Events.AllJobsOffline(stale[..i]))
        invariant db.nodes == t.nodes
      {
        MarkNodeJobsForOffline(db, stale[i]);
        assert stale[..i + 1][..i] == stale[..i];
        RunConcat(t, Events.AllJobsOffline(stale[..i]), Events.JobsOffline(stale[i]));
      }
      assert stale[..|stale|] == stale;
      var now := set n | n in db.nodes && db.nodes[n].isOnline;
      var _ := db.UpdateRows(RestoreStaleInactiveJobs(now, oldRows));
      online := now;
      RunConcat(s, Events.SetOffline(stale), Events.AllJobsOffline(stale));
      RunThen(s, Events.SetOffline(stale) + Events.AllJobsOffline(stale),
              UpdateJobs(RestoreStaleInactiveJobs(now, oldRows)));
    }

    /** The admin's deletion of a node; refused while the node is unknown or online. */
    method DeleteNode(n: NodeId) returns (ok: bool)
      modifies db
      ensures db.View() == Events.After(old(db.View()), Events.RemoveNode(n))
      ensures ok <==> n in old(db.nodes) && !old(db.nodes)[n].isOnline
      ensures ok ==> n !in db.nodes
    {
      if n !in db.nodes || db.nodes[n].isOnline {
        return false;
      }
      var _ := db.UpdateRows(FailNodeJobsForDeletion(n));
      var _ := db.Execute(Action.DeleteNode(n));
      ok := true;
      RunTwo(old(db.View()), UpdateJobs(FailNodeJobsForDeletion(n)), Action.DeleteNode(n));
    }
  }

  lemma NodeGoesOffline(s: Db, n: NodeId)
    ensures var t := Next(s, SetNodeOnline(n, false));
            t.nodes.Keys == s.nodes.Keys
            && forall k :: k in s.nodes ==> t.nodes[k].isOnline == (s.nodes[k].isOnline && k != n)
  {
  }

  lemma CompletionKeepsKey(s: Db, id: JobId, uri: string)
    ensures var t := Next(s, UpdateJobs(CompleteUpload(id, uri)));
            t.jobs.Keys == s.jobs.Keys
            && (id in s.jobs ==> t.jobs[id].engine == s.jobs[id].engine && t.jobs[id].storageKey == s.jobs[id].storageKey)
  {
  }

  /** MarkNodeJobsForOffline of internal/database/nodeoffline.go. */
  method MarkNodeJobsForOffline(db: Database, n: NodeId)
    modifies db`jobs
    ensures db.View() == Run(old(db.View()), Events.JobsOffline(n))
  {
    var _ := db.UpdateRows(MarkNodeActiveJobsFailed(n));
    var _ := db.UpdateRows(MarkNodeCompletedJobsInactive(n));
    RunTwo(old(db.View()), UpdateJobs(MarkNodeActiveJobsFailed(n)), UpdateJobs(MarkNodeCompletedJobsInactive(n)));
  }
}
