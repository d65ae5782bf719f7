/** What Add leaves in the table and what it answers, in terms of the request and the node's answer alone. */
module OutcomesOfAdd {
  import opened Wrappers
  import opened Reports
  import opened Tables
  import opened Protocol
  import opened Histories
  import opened DownloadSteps

  /** The job of the key is queued, active or completed. */
  ghost predicate InUse(s: Db, key: string) {
    exists id :: id in s.jobs && s.jobs[id].storageKey == key
                 && (s.jobs[id].status == Queued || s.jobs[id].status == Active || s.jobs[id].status == Completed)
  }

  ghost predicate IsCompleted(s: Db, key: string) {
    exists id :: id in s.jobs && s.jobs[id].storageKey == key && s.jobs[id].status == Completed
  }

  /** The row of a job that Add has just sent to a node. */
  predicate Prepared(s: Db, t: Db, id: JobId, req: Request, n: NodeId) {
    && id in t.jobs
    && var row := t.jobs[id];
       && row.storageKey == req.storageKey && row.nodeId == Some(n) && row.url == req.url
       && row.progress == 0.0 && row.speed == 0 && row.downloadedSize == 0
       && (id !in s.jobs ==>
             && row.engine == req.engine && row.name == req.name
             && row.size == None && row.uploadStatus == NotUploaded)
       && (id in s.jobs ==>
             var before := s.jobs[id];
             && before.storageKey == req.storageKey && (before.status == Failed || before.status == Inactive)
             && row.engine == before.engine && row.name == before.name
             && row.size == before.size && row.uploadStatus == before.uploadStatus)
  }

  /** The row after the node's answer. */
  predicate Answered(row: Job, d: Dispatch) {
    match d
    case Accepted(gid, location) =>
      && row.status == Active && row.errorMessage == None
      && row.engineJobId == (if gid != "" then Some(gid) else None)
      && row.fileLocation == (if location != "" then Some(location) else None)
    case Refused(error) =>
      && row.status == Failed && row.errorMessage == Some(if error != "" then error else "node rejected job")
      && row.engineJobId == None && row.fileLocation == None
  }

  /** Other jobs, and other users' downloads, are left alone. */
  ghost predicate OthersStay(s: Db, t: Db, id: JobId) {
    && (forall k :: k in s.jobs && k != id ==> k in t.jobs && t.jobs[k] == s.jobs[k])
    && (forall k :: k in t.jobs && k != id ==> k in s.jobs)
  }

  // ---------- Statement by statement ----------

  lemma ResetPrepares(s: Db, req: Request, id: JobId, n: NodeId, link: Action)
    requires id in s.jobs && s.jobs[id].storageKey == req.storageKey && Reusable(s.jobs[id]) && n in s.nodes
    requires link.CreateDownload?
    ensures var t := Run(s, [UpdateJobs(ResetJob(id, n, req.url)), link]);
            && Prepared(s, t, id, req, n) && OthersStay(s, t, id)
            && t.jobs[id].status == Queued && t.jobs[id].engineJobId == None
            && t.jobs[id].fileLocation == None && t.jobs[id].errorMessage == None
  {
    hide Run;
    RunTwo(s, UpdateJobs(ResetJob(id, n, req.url)), link);
  }

  lemma CreatePrepares(s: Db, req: Request, id: JobId, n: NodeId, download: DownloadId)
    requires var create := CreateJob(id, NewJob(n, req.engine, req.url, req.storageKey, req.name), download, req.user);
             Admissible(s, create)
    ensures var create := CreateJob(id, NewJob(n, req.engine, req.url, req.storageKey, req.name), download, req.user);
            var t := Run(s, [create]);
            && Prepared(s, t, id, req, n) && OthersStay(s, t, id)
            && t.jobs[id].status == Queued && t.jobs[id].engineJobId == None
            && t.jobs[id].fileLocation == None && t.jobs[id].errorMessage == None
  {
    var create := CreateJob(id, NewJob(n, req.engine, req.url, req.storageKey, req.name), download, req.user);
    RunOne(s, create);
  }

  lemma AnswerRow(s: Db, t: Db, id: JobId, req: Request, n: NodeId, a: Action, d: Dispatch)
    requires Prepared(s, t, id, req, n) && OthersStay(s, t, id)
    requires t.jobs[id].engineJobId == None && t.jobs[id].fileLocation == None && t.jobs[id].errorMessage == None
    requires match d
             case Accepted(gid, location) => a == UpdateJobs(UpdateJobStatus(id, Active, gid, "", location))
             case Refused(error) =>
               a == UpdateJobs(UpdateJobStatus(id, Failed, "", if error == "" then "node rejected job" else error, ""))
    ensures var u := Next(t, a); Prepared(s, u, id, req, n) && OthersStay(s, u, id) && Answered(u.jobs[id], d)
  {
  }

  // ---------- Outcomes ----------

  /** What Add did with the node, by the shape of its statements. */
  lemma SentRow(s: Db, req: Request, c: Circumstances, a: Adding) returns (id: JobId)
    requires IsAdd(s, req, c, a) && a.dispatched
    ensures c.selected.Some? && c.connected
    ensures var t := Run(s, a.actions);
            Prepared(s, t, id, req, c.selected.value) && OthersStay(s, t, id) && Answered(t.jobs[id], c.dispatch)
    ensures match c.dispatch
            case Accepted(_, _) => a.answer.Ok? && a.answer.value.job == id && a.answer.value.node == c.selected
                                   && a.answer.value.status == Active && !a.answer.value.cacheHit
            case Refused(_) => a.answer == Err(DispatchRefused)
    ensures !InUse(s, req.storageKey) || id !in s.jobs || s.jobs[id].status == Failed || s.jobs[id].status == Inactive
  {
    hide Next, Run, HasDownload, InUse, Prepared, OthersStay, Answered;
    var job: Option<JobId>, mine: Option<DownloadId> :| IsJobOf(s.jobs, req.storageKey, job)
      && (job.Some? ==> IsDownloadOf(s.downloads, req.user, job.value, mine)) && a == AddWith(s, req, c, job, mine);
    var n := c.selected.value;
    if job.Some? && n in s.nodes {
      id := job.value;
      var start := [UpdateJobs(ResetJob(id, n, req.url)), CreateDownload(c.newDownload, req.user, id)];
      ResetPrepares(s, req, id, n, start[1]);
      AnswerRow(s, Run(s, start), id, req, n, a.actions[2], c.dispatch);
      RunThen(s, start, a.actions[2]);
    } else {
      id := c.newJob;
      CreatePrepares(s, req, id, n, c.newDownload);
      AnswerRow(s, Run(s, [a.actions[0]]), id, req, n, a.actions[1], c.dispatch);
      RunThen(s, [a.actions[0]], a.actions[1]);
    }
  }

  /**
   An accepted dispatch: the row of the answer's job has the node's engine ID and location, the request's URL
   and the selected node; if Add created it, also the request's engine and name.
   */
  lemma AcceptedRow(s: Db, req: Request, c: Circumstances, a: Adding)
    requires IsAdd(s, req, c, a) && a.dispatched && c.dispatch.Accepted?
    ensures a.answer.Ok? && a.answer.value.job in Run(s, a.actions).jobs
    ensures var row, id := Run(s, a.actions).jobs[a.answer.value.job], a.answer.value.job;
            && row.status == Active && row.nodeId == c.selected && c.selected.Some?
            && row.url == req.url && row.storageKey == req.storageKey
            && (c.dispatch.engineJobId != "" ==> row.engineJobId == Some(c.dispatch.engineJobId))
            && (c.dispatch.location != "" ==> row.fileLocation == Some(c.dispatch.location))
            && (id !in s.jobs ==> row.engine == req.engine && row.name == req.name)
            && (id in s.jobs ==> row.engine == s.jobs[id].engine && row.name == s.jobs[id].name)
    ensures OthersStay(s, Run(s, a.actions), a.answer.value.job)
  {
    hide IsAdd, Run;
    var id := SentRow(s, req, c, a);
  }

  /** A refused dispatch: the job of the key has failed with the node's message, or the default one. */
  lemma RefusedRow(s: Db, req: Request, c: Circumstances, a: Adding) returns (id: JobId)
    requires IsAdd(s, req, c, a) && a.dispatched && c.dispatch.Refused?
    ensures a.answer == Err(DispatchRefused) && id in Run(s, a.actions).jobs
    ensures var row := Run(s, a.actions).jobs[id];
            && row.storageKey == req.storageKey && row.status == Failed && row.nodeId == c.selected
            && row.errorMessage == Some(if c.dispatch.error != "" then c.dispatch.error else "node rejected job")
            && row.fileLocation == None
    ensures OthersStay(s, Run(s, a.actions), id)
  {
    hide IsAdd, Run;
    id := SentRow(s, req, c, a);
  }

  /**
   An answer says what the table says afterwards: the job's node and status; and it is a cache hit exactly if
   the job of the key was completed before.
   */
  lemma AnswerIsTrue(s: Db, req: Request, c: Circumstances, a: Adding)
    requires KeysUnique(s.jobs) && IsAdd(s, req, c, a) && a.answer.Ok?
    ensures var r, t := a.answer.value, Run(s, a.actions);
            && r.job in t.jobs && t.jobs[r.job].storageKey == req.storageKey
            && r.status == t.jobs[r.job].status && r.node == t.jobs[r.job].nodeId
            && (r.cacheHit <==> IsCompleted(s, req.storageKey))
    ensures a.dispatched <==> !InUse(s, req.storageKey)
  {
    hide Next, HasDownload, Prepared, OthersStay, Answered;
    if a.dispatched {
      var id := SentRow(s, req, c, a);
      assert Prepared(s, Run(s, a.actions), id, req, c.selected.value);
      AcceptedIs(s, req, c, a);
    } else {
      CachedAnswer(s, req, c, a);
    }
  }

  lemma AcceptedIs(s: Db, req: Request, c: Circumstances, a: Adding)
    requires IsAdd(s, req, c, a) && a.dispatched && a.answer.Ok?
    ensures var r, t := a.answer.value, Run(s, a.actions);
            && r.job in t.jobs && t.jobs[r.job].storageKey == req.storageKey
            && r.status == t.jobs[r.job].status && r.node == t.jobs[r.job].nodeId && !r.cacheHit
  {
    hide IsAdd, Run;
    var id := SentRow(s, req, c, a);
  }

  lemma CachedAnswer(s: Db, req: Request, c: Circumstances, a: Adding)
    requires KeysUnique(s.jobs) && IsAdd(s, req, c, a) && !a.dispatched && a.answer.Ok?
    ensures var r, t := a.answer.value, Run(s, a.actions);
            && t.jobs == s.jobs && r.job in t.jobs && t.jobs[r.job].storageKey == req.storageKey
            && r.status == t.jobs[r.job].status && r.node == t.jobs[r.job].nodeId
            && (r.cacheHit <==> IsCompleted(s, req.storageKey))
    ensures InUse(s, req.storageKey)
  {
    hide HasDownload, IsDownloadOf;
    var job: Option<JobId>, mine: Option<DownloadId> :| IsJobOf(s.jobs, req.storageKey, job)
      && (job.Some? ==> IsDownloadOf(s.downloads, req.user, job.value, mine)) && a == AddWith(s, req, c, job, mine);
    if a.actions != [] {
      RunOne(s, a.actions[0]);
    }
  }

  /** The errors of Add before it sends anything, each exactly under its own circumstances; the jobs stay as they were. */
  lemma RefusedBefore(s: Db, req: Request, c: Circumstances, a: Adding)
    requires KeysUnique(s.jobs) && IsAdd(s, req, c, a)
    ensures a.answer == Err(NoNode) <==> !InUse(s, req.storageKey) && c.selected.None?
    ensures a.answer == Err(NotConnected) <==> !InUse(s, req.storageKey) && c.selected.Some? && !c.connected
    ensures a.answer == Err(DispatchRefused) <==> a.dispatched && c.dispatch.Refused?
    ensures a.answer == Err(CannotLink) ==> !a.dispatched && (req.user !in s.users || c.newDownload in s.downloads)
    ensures a.answer == Err(CannotAttach) ==> InUse(s, req.storageKey)
    ensures a.answer in {Err(NoNode), Err(NotConnected), Err(CannotAttach), Err(CannotCreate)} ==> Run(s, a.actions) == s
  {
    var job: Option<JobId>, mine: Option<DownloadId> :| IsJobOf(s.jobs, req.storageKey, job)
      && (job.Some? ==> IsDownloadOf(s.downloads, req.user, job.value, mine)) && a == AddWith(s, req, c, job, mine);
    assert InUse(s, req.storageKey) <==> job.Some? && !Reusable(s.jobs[job.value]) by {
      hide AddWith, Run;
    }
    hide InUse, KeysUnique, Next;
    if |a.actions| == 1 {
      RunOne(s, a.actions[0]);
      if !Admissible(s, a.actions[0]) {
        InadmissibleSkips(s, a.actions[0]);
      }
    } else if a.actions == [] {
      RunNothing(s);
    }
  }

  /**
   Add succeeds for an existing user with new IDs whenever the key's job is in use, or else a connected known
   node is selected and accepts the job.
   */
  lemma AddSucceeds(s: Db, req: Request, c: Circumstances, a: Adding)
    requires KeysUnique(s.jobs) && IsAdd(s, req, c, a)
    requires req.user in s.users && c.newDownload !in s.downloads && c.newJob !in s.jobs
    requires InUse(s, req.storageKey)
          || (c.selected.Some? && c.selected.value in s.nodes && c.connected && c.dispatch.Accepted?)
    ensures a.answer.Ok?
  {
    var job: Option<JobId>, mine: Option<DownloadId> :| IsJobOf(s.jobs, req.storageKey, job)
      && (job.Some? ==> IsDownloadOf(s.downloads, req.user, job.value, mine)) && a == AddWith(s, req, c, job, mine);
    assert InUse(s, req.storageKey) ==> job.Some? && !Reusable(s.jobs[job.value]) by {
      hide AddWith;
    }
    hide KeysUnique, InUse;
  }
}
