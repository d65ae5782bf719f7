/**
 The controller's entry points as runs of statements, and the run theorem over entry points: only
 what workers report needs an assumption, everything else keeps the database consistent on its own.
 */
module Events {
  import opened Reports
  import opened Tables
  import opened Protocol
  import opened Histories
  import opened DownloadSteps

  datatype Event =
    | SignUp(user: UserId)
    | StartController(node: NodeId, stale: seq<NodeId>, diskKeys: set<string>)
    | Register(node: NodeId)
    | Deregister(node: NodeId)
    | Heartbeat(node: NodeId, connected: bool)
    | Reap(nodes: seq<NodeId>, online: set<NodeId>, oldRows: set<JobId>)
    | ReconcileNode(node: NodeId, diskKeys: set<string>)
    | RemoveNode(node: NodeId)
    | FailStale(ids: seq<JobId>)
    | PushJobStatuses(progress: Chosen, completed: Chosen, failed: Chosen, uploadPending: bool)
    | ListPendingUploads(node: NodeId)
    | UploadSucceeded(id: JobId, remoteUri: string)
    | UploadErred(id: JobId)
    | Add(request: Request, circumstances: Circumstances, adding: Adding)
    | Delete(download: DownloadId)
    | RemoveUser(user: UserId, rows: seq<DownloadId>)
    | GenerateLink(link: LinkId, entry: Link)

  function JobsOffline(n: NodeId): seq<Action> {
    [UpdateJobs(MarkNodeActiveJobsFailed(n)), UpdateJobs(MarkNodeCompletedJobsInactive(n))]
  }

  function Reconciliation(n: NodeId, diskKeys: set<string>): seq<Action> {
    [UpdateJobs(RestoreNodeInactiveJobsWithKeys(n, diskKeys)), UpdateJobs(FailNodeInactiveJobsMissingKeys(n))]
  }

  function SetOffline(nodes: seq<NodeId>): seq<Action> {
    if nodes == [] then [] else SetOffline(nodes[..|nodes| - 1]) + [SetNodeOnline(nodes[|nodes| - 1], false)]
  }

  function AllJobsOffline(nodes: seq<NodeId>): seq<Action> {
    if nodes == [] then [] else AllJobsOffline(nodes[..|nodes| - 1]) + JobsOffline(nodes[|nodes| - 1])
  }

  function FailAll(ids: seq<JobId>): seq<Action> {
    if ids == [] then []
    else FailAll(ids[..|ids| - 1]) + [UpdateJobs(FailJob(ids[|ids| - 1], "stale - no status updates"))]
  }

  /** The statements an entry point issues. */
  function Plan(s: Db, e: Event): seq<Action> {
    match e
    case SignUp(u) => [InsertUser(u)]
    case StartController(n, stale, diskKeys) =>
      [UpsertNode(n, true)] + SetOffline(stale) + AllJobsOffline(stale) + JobsOffline(n) + Reconciliation(n, diskKeys)
    case Register(n) =>
      [UpsertNode(n, false), UpdateJobs(MarkNodeActiveJobsFailed(n)), UpdateJobs(ResetStuckUploads(n))]
    case Deregister(n) => [SetNodeOnline(n, false)] + JobsOffline(n)
    case Heartbeat(n, connected) =>
      if connected then [SetNodeOnline(n, true)]
      else if n !in s.nodes then []
      else [UpdateJobs(RestoreNodeInactiveJobs(n)), SetNodeOnline(n, true)]
    case Reap(nodes, online, oldRows) =>
      SetOffline(nodes) + AllJobsOffline(nodes) + [UpdateJobs(RestoreStaleInactiveJobs(online, oldRows))]
    case ReconcileNode(n, diskKeys) => Reconciliation(n, diskKeys)
    case RemoveNode(n) =>
      if n in s.nodes && !s.nodes[n].isOnline then [UpdateJobs(FailNodeJobsForDeletion(n)), DeleteNode(n)] else []
    case FailStale(ids) => FailAll(ids)
    case PushJobStatuses(progress, completed, failed, uploadPending) =>
      [UpdateJobs(BatchUpdateJobProgress(progress)), UpdateJobs(BatchCompleteJobs(completed, uploadPending)),
       UpdateJobs(BatchFailJobs(failed))]
    case ListPendingUploads(n) => [UpdateJobs(ClaimPendingUploads(n))]
    case UploadSucceeded(id, uri) =>
      if id !in s.jobs then []
      else [UpdateJobs(CompleteUpload(id, uri)), RewriteLinks(id, s.jobs[id].engine + "/" + s.jobs[id].storageKey, uri)]
    case UploadErred(id) => [UpdateJobs(SetUploadStatus(id, UploadFailed))]
    case Add(_, _, adding) => adding.actions
    case Delete(d) => if d in s.downloads then [DeleteAction(s, d)] else []
    case RemoveUser(u, rows) =>
      (if forall d :: d in rows ==> d in s.downloads then DeleteActions(s, rows) else []) + [DeleteUser(u)]
    case GenerateLink(l, entry) => [CreateLink(l, entry)]
  }

  /** The details of the event fit the state: what queries return, and what nodes and schedulers answer. */
  ghost predicate Possible(s: Db, e: Event) {
    match e
    case FailStale(ids) => forall id :: id in ids ==> id in s.jobs && Running(s.jobs[id])
    case Add(request, c, adding) => LocatesFiles(c.dispatch) && IsAdd(s, request, c, adding)
    case RemoveUser(u, rows) => Distinct(rows) && ToSet(rows) == DownloadsBy(s, u)
    case _ => true
  }

  /**
   What is asked of workers: progress and completion only for jobs whose row still has its local copy,
   failures and upload errors only for jobs not uploaded, a finished upload only for a completed job.
   */
  predicate Trusted(s: Db, e: Event) {
    match e
    case PushJobStatuses(progress, completed, failed, _) =>
      && (forall id :: id in progress && id in s.jobs ==> Local(s.jobs[id]))
      && (forall id :: id in completed && id in s.jobs ==> Local(s.jobs[id]))
      && (forall id :: id in failed && id in s.jobs ==> s.jobs[id].uploadStatus != Uploaded)
    case UploadSucceeded(id, uri) => id in s.jobs ==> s.jobs[id].status == Completed && IsRemoteUri(uri)
    case UploadErred(id) => id in s.jobs ==> s.jobs[id].uploadStatus != Uploaded
    case _ => true
  }

  /** The statement needs no guard. */
  predicate Harmless(a: Action) {
    match a
    case UpdateJobs(u) => ChangesNodeRows(u)
    case DeleteNode(_) => false
    case DeleteDownload(_) => false
    case DeleteUser(_) => false
    case _ => true
  }

  predicate AllHarmless(actions: seq<Action>) {
    forall i :: 0 <= i < |actions| ==> Harmless(actions[i])
  }

  lemma {:induction false} HarmlessAllowed(s: Db, actions: seq<Action>)
    requires AllHarmless(actions)
    ensures Allowed(s, actions)
    decreases |actions|
  {
    hide Next;
    if actions != [] {
      assert Guard(s, actions[0]);
      HarmlessAllowed(Next(s, actions[0]), actions[1..]);
    }
  }

  lemma OfflineHarmless(nodes: seq<NodeId>)
    ensures AllHarmless(SetOffline(nodes)) && AllHarmless(AllJobsOffline(nodes))
  {
  }

  lemma {:induction false} FailAllAllowed(s: Db, ids: seq<JobId>)
    requires forall id :: id in ids && id in s.jobs ==> s.jobs[id].uploadStatus != Uploaded
    ensures Allowed(s, FailAll(ids))
    ensures var t := Run(s, FailAll(ids));
            t.jobs.Keys == s.jobs.Keys && forall id :: id in s.jobs ==> t.jobs[id].uploadStatus == s.jobs[id].uploadStatus
    decreases |ids|
  {
    if ids != [] {
      var before, id := ids[..|ids| - 1], ids[|ids| - 1];
      FailAllAllowed(s, before);
      AllowThen(s, FailAll(before), UpdateJobs(FailJob(id, "stale - no status updates")));
    }
  }

  /** What a push relies on and keeps, row by row. */
  lemma PushedRow(j: Job, id: JobId, progress: Chosen, completed: Chosen, uploadPending: bool)
    requires RowOk(j)
    ensures var m := Exec(BatchUpdateJobProgress(progress), id, j);
            var d := Exec(BatchCompleteJobs(completed, uploadPending), id, m);
            && (Local(j) ==> j.uploadStatus != Uploaded && Local(m))
            && m.uploadStatus == j.uploadStatus
            && (j.uploadStatus != Uploaded ==> d.uploadStatus != Uploaded)
  {
  }

  lemma UpdatedRow(s: Db, u: Update, id: JobId)
    requires id in s.jobs && !u.ResetJob?
    ensures id in Next(s, UpdateJobs(u)).jobs
    ensures var j := Next(s, UpdateJobs(u)).jobs[id];
            j == Exec(u, id, s.jobs[id]) || (u.BatchCompleteJobs? && j == s.jobs[id])
  {
    hide Exec;
  }

  lemma SameIds(s: Db, u: Update)
    ensures Next(s, UpdateJobs(u)).jobs.Keys == s.jobs.Keys
  {
  }

  lemma PushAllowed(s: Db, e: Event)
    requires Inv(s) && e.PushJobStatuses? && Trusted(s, e)
    ensures Allowed(s, Plan(s, e))
  {
    hide Constraints, JobsKept, RowOk, Exec, Local, Next, Apply;
    var a, b, c := UpdateJobs(BatchUpdateJobProgress(e.progress)),
                   UpdateJobs(BatchCompleteJobs(e.completed, e.uploadPending)), UpdateJobs(BatchFailJobs(e.failed));
    var t := Next(s, a);
    SameIds(s, a.update);
    SameIds(t, b.update);
    forall id | id in s.jobs
      ensures Local(s.jobs[id]) ==> Local(t.jobs[id])
      ensures s.jobs[id].uploadStatus != Uploaded ==> Next(t, b).jobs[id].uploadStatus != Uploaded
    {
      PushedRow(s.jobs[id], id, e.progress, e.completed, e.uploadPending);
      UpdatedRow(s, a.update, id);
      UpdatedRow(t, b.update, id);
    }
    assert Guard(s, a) && Guard(t, b) && Guard(Next(t, b), c);
    hide Guard;
    AllowTwo(s, a, b);
    AllowThen(s, [a, b], c);
    assert [a, b] + [c] == Plan(s, e);
  }

  lemma RemoveNodeAllowed(s: Db, n: NodeId)
    ensures Allowed(s, [UpdateJobs(FailNodeJobsForDeletion(n)), DeleteNode(n)])
  {
    AllowTwo(s, UpdateJobs(FailNodeJobsForDeletion(n)), DeleteNode(n));
  }

  /** Every entry point issues only statements whose guards hold. */
  lemma PlanAllowed(s: Db, e: Event)
    requires Inv(s) && Possible(s, e) && Trusted(s, e)
    ensures Allowed(s, Plan(s, e))
  {
    hide Next, Guard, Inv, IsAdd, Local;
    match e {
      case PushJobStatuses(_, _, _, _) => PushAllowed(s, e);
      case RemoveNode(n) => RemoveNodeAllowed(s, n);
      case FailStale(ids) =>
        RunningNotUploaded(s);
        FailAllAllowed(s, ids);
      case UploadSucceeded(id, uri) => UploadAllowed(s, id, uri);
      case UploadErred(id) => ErredAllowed(s, id);
      case Add(request, c, adding) => AddKeepsInv(s, request, c, adding);
      case Delete(d) => DeleteAllowed(s, d);
      case RemoveUser(u, rows) => DeleteUserCollects(s, u, rows);
      case _ =>
        OtherPlansHarmless(s, e);
        HarmlessAllowed(s, Plan(s, e));
    }
  }

  lemma DeleteAllowed(s: Db, d: DownloadId)
    requires Inv(s)
    ensures Allowed(s, Plan(s, Delete(d)))
  {
    hide Next, Guard, Inv;
    if d in s.downloads {
      DeleteCollects(s, d);
      AllowOne(s, DeleteAction(s, d));
    }
  }

  lemma OtherPlansHarmless(s: Db, e: Event)
    requires !e.PushJobStatuses? && !e.RemoveNode? && !e.FailStale? && !e.UploadSucceeded? && !e.UploadErred?
    requires !e.Add? && !e.Delete? && !e.RemoveUser?
    ensures AllHarmless(Plan(s, e))
  {
    if e.StartController? {
      OfflineHarmless(e.stale);
    } else if e.Reap? {
      OfflineHarmless(e.nodes);
    }
  }

  lemma RunningNotUploaded(s: Db)
    requires Inv(s)
    ensures forall id :: id in s.jobs && Running(s.jobs[id]) ==> s.jobs[id].uploadStatus != Uploaded
  {
    forall id | id in s.jobs && Running(s.jobs[id]) ensures s.jobs[id].uploadStatus != Uploaded {
      assert RowOk(s.jobs[id]);
    }
  }

  lemma UploadAllowed(s: Db, id: JobId, uri: string)
    requires Trusted(s, UploadSucceeded(id, uri))
    ensures Allowed(s, Plan(s, UploadSucceeded(id, uri)))
  {
    if id in s.jobs {
      AllowTwo(s, UpdateJobs(CompleteUpload(id, uri)),
             RewriteLinks(id, s.jobs[id].engine + "/" + s.jobs[id].storageKey, uri));
    }
  }

  lemma ErredAllowed(s: Db, id: JobId)
    requires Trusted(s, UploadErred(id))
    ensures Allowed(s, Plan(s, UploadErred(id)))
  {
    AllowOne(s, UpdateJobs(SetUploadStatus(id, UploadFailed)));
  }

  // ---------- Runs of entry points ----------

  function After(s: Db, e: Event): Db {
    Run(s, Plan(s, e))
  }

  function Play(s: Db, events: seq<Event>): Db
    decreases |events|
  {
    if events == [] then s else Play(After(s, events[0]), events[1..])
  }

  ghost predicate Played(s: Db, events: seq<Event>)
    decreases |events|
  {
    events != [] ==>
      Possible(s, events[0]) && Trusted(s, events[0]) && Played(After(s, events[0]), events[1..])
  }

  /** Every run of entry points from an empty database keeps the database consistent. */
  lemma {:induction false} PlayKeepsInv(s: Db, events: seq<Event>)
    requires Inv(s) && Played(s, events)
    ensures Inv(Play(s, events))
    decreases |events|
  {
    hide Inv, Plan, Possible, Trusted;
    if events != [] {
      PlanAllowed(s, events[0]);
      RunKeepsInv(s, Plan(s, events[0]));
      PlayKeepsInv(After(s, events[0]), events[1..]);
    }
  }

  /** Safety of every run, in terms of what users see: unique content, unique links to it, and findable files. */
  lemma RunsAreSafe(events: seq<Event>)
    requires Played(EMPTY, events)
    ensures var s := Play(EMPTY, events);
            && KeysUnique(s.jobs) && DownloadsUnique(s.downloads)
            && (forall d :: d in s.downloads ==> s.downloads[d].jobId in s.jobs)
            && (forall id :: id in s.jobs ==> Kept(s, id, {}))
            && (forall id :: id in s.jobs && s.jobs[id].status != Failed ==> !SourceOf(s.jobs[id]).NoNodeAssigned?)
            && (forall id :: id in s.jobs && s.jobs[id].status == Completed ==> Local(s.jobs[id]) || Remote(s.jobs[id]))
  {
    PlayKeepsInv(EMPTY, events);
    var s := Play(EMPTY, events);
    forall id | id in s.jobs ensures RowOk(s.jobs[id]) {
    }
  }

  // ---------- What workers may report ----------

  /** Workers report only on active jobs, and on uploads only of completed jobs whose upload they claimed. */
  predicate Fits(s: Db, e: Event) {
    match e
    case PushJobStatuses(progress, completed, failed, _) =>
      forall id :: id in s.jobs && (id in progress || id in completed || id in failed) ==> s.jobs[id].status == Active
    case UploadSucceeded(id, uri) =>
      id in s.jobs ==> s.jobs[id].status == Completed && s.jobs[id].uploadStatus == Uploading && IsRemoteUri(uri)
    case UploadErred(id) => id in s.jobs ==> s.jobs[id].status == Completed && s.jobs[id].uploadStatus == Uploading
    case _ => true
  }

  /** In a consistent database that is all the guards need. */
  lemma FittingIsTrusted(s: Db, e: Event)
    requires Inv(s) && Fits(s, e)
    ensures Trusted(s, e)
  {
    hide Constraints, JobsKept;
    forall id | id in s.jobs ensures RowOk(s.jobs[id]) {
    }
  }

  ghost predicate FittingRun(s: Db, events: seq<Event>)
    decreases |events|
  {
    events != [] ==>
      Possible(s, events[0]) && Fits(s, events[0]) && FittingRun(After(s, events[0]), events[1..])
  }

  lemma {:induction false} FittingIsPlayed(s: Db, events: seq<Event>)
    requires Inv(s) && FittingRun(s, events)
    ensures Played(s, events) && Inv(Play(s, events))
    decreases |events|
  {
    hide Inv, Plan, Possible, Trusted, Fits;
    if events != [] {
      var e := events[0];
      FittingIsTrusted(s, e);
      PlanAllowed(s, e);
      RunKeepsInv(s, Plan(s, e));
      FittingIsPlayed(After(s, e), events[1..]);
    }
  }

  /** A report on a consistent running job keeps its row consistent if and only if the row has its location. */
  lemma RunningReportExactly(j: Job, id: JobId, progress: Chosen)
    requires RowOk(j) && Running(j) && id in progress
    ensures RowOk(Exec(BatchUpdateJobProgress(progress), id, j)) <==> Local(j)
    ensures j.status == Active ==> Local(j)
  {
  }

  /** A queued job has none yet: Add stopped before it dispatched the job, or has not recorded the answer. */
  lemma QueuedReportBreaks(n: NewJob, id: JobId, progress: Chosen)
    requires id in progress
    ensures RowOk(FreshRow(n)) && Running(FreshRow(n))
    ensures !RowOk(Exec(BatchUpdateJobProgress(progress), id, FreshRow(n)))
  {
  }
}
