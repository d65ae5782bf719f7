/**
 The job protocol: which rows are consistent, exactly which statements keep them so, and what
 follows for every run.
 */
module Protocol {
  import opened Wrappers
  import opened Reports
  import opened Tables

  // ---------- Consistency ----------

  /** The content is on the assigned node. */
  predicate Local(j: Job) {
    j.nodeId.Some? && j.fileLocation.Some? && IsLocalUri(j.fileLocation.value)
  }

  /** The content is in remote storage and on no node. */
  predicate Remote(j: Job) {
    j.nodeId.None? && j.fileLocation.Some? && IsRemoteUri(j.fileLocation.value) && j.uploadStatus == Uploaded
  }

  predicate RowOk(j: Job) {
    && (match j.status
        case Completed => Local(j) || Remote(j)
        case Active => Local(j)
        case Inactive => Local(j)
        case Queued => j.nodeId.Some?
        case Failed => true)
    && (j.uploadStatus == Uploaded ==> j.status == Completed && Remote(j))
  }

  ghost predicate KeysUnique(jobs: Jobs) {
    forall i, k :: i in jobs && k in jobs && jobs[i].storageKey == jobs[k].storageKey ==> i == k
  }

  ghost predicate DownloadsUnique(downloads: Downloads) {
    forall d, e :: d in downloads && e in downloads && downloads[d] == downloads[e] ==> d == e
  }

  /** Some download other than those in `gone` refers to the job. */
  ghost predicate Kept(s: Db, id: JobId, gone: set<DownloadId>) {
    exists d :: d in s.downloads && d !in gone && s.downloads[d].jobId == id
  }

  ghost predicate RowsOk(jobs: Jobs) {
    forall id :: id in jobs ==> RowOk(jobs[id])
  }

  ghost predicate JobsKept(s: Db) {
    forall id :: id in s.jobs ==> Kept(s, id, {})
  }

  ghost predicate NodesExist(jobs: Jobs, nodes: set<NodeId>) {
    forall id :: id in jobs && jobs[id].nodeId.Some? ==> jobs[id].nodeId.value in nodes
  }

  ghost predicate DownloadsValid(downloads: Downloads, users: set<UserId>, jobs: set<JobId>) {
    forall d :: d in downloads ==> downloads[d].userId in users && downloads[d].jobId in jobs
  }

  ghost predicate LinksValid(links: Links, users: set<UserId>, downloads: set<DownloadId>) {
    forall l :: l in links ==> links[l].userId in users && links[l].downloadId in downloads
  }

  /** The constraints of the schema. */
  ghost predicate Constraints(s: Db) {
    && NodesExist(s.jobs, s.nodes.Keys)
    && KeysUnique(s.jobs)
    && DownloadsValid(s.downloads, s.users, s.jobs.Keys)
    && DownloadsUnique(s.downloads)
    && LinksValid(s.links, s.users, s.downloads.Keys)
  }

  /** Every row is consistent, the schema's constraints hold, and every job has a download. */
  ghost predicate Inv(s: Db) {
    RowsOk(s.jobs) && Constraints(s) && JobsKept(s)
  }

  // ---------- Exact conditions ----------

  /** Exactly when the statement leaves a consistent row consistent. */
  predicate RowGuard(u: Update, id: JobId, j: Job) {
    match u
    case UpdateJobStatus(target, status, _, _, location) =>
      id == target ==>
        if j.uploadStatus == Uploaded then status == Completed && (location != "" ==> IsRemoteUri(location))
        else
          (match status
           case Failed => true
           case Queued => j.nodeId.Some?
           case _ => j.nodeId.Some? && (if location != "" then IsLocalUri(location) else Local(j)))
    case FailJob(target, _) => id == target ==> j.uploadStatus != Uploaded
    case BatchUpdateJobProgress(chosen) => id in chosen ==> Local(j)
    case BatchCompleteJobs(chosen, uploadPending) => id in chosen ==> Local(j) || (Remote(j) && !uploadPending)
    case BatchFailJobs(chosen) => id in chosen ==> j.uploadStatus != Uploaded
    case CompleteUpload(target, uri) => id == target ==> j.status == Completed && IsRemoteUri(uri)
    case SetUploadStatus(target, us) => id == target ==> (us == Uploaded <==> j.uploadStatus == Uploaded)
    case _ => true  // ResetJob and the statements over a node's rows choose only rows they keep consistent
  }

  /** Exactly when a step keeps the invariant. */
  ghost predicate Guard(s: Db, a: Action) {
    match a
    case UpdateJobs(u) =>
      (u.BatchCompleteJobs? && SizeUnknown(s.jobs, u.chosen))
      || forall id :: id in s.jobs ==> RowGuard(u, id, s.jobs[id])
    case DeleteNode(n) => forall id :: id in s.jobs && Assigned(s.jobs[id], n) ==> s.jobs[id].status == Failed
    case DeleteDownload(d) => d in s.downloads ==> Kept(s, s.downloads[d].jobId, {d})
    case DeleteUser(u) => forall d :: d in DownloadsBy(s, u) ==> Kept(s, s.downloads[d].jobId, DownloadsBy(s, u))
    case _ => true
  }

  lemma RowExact(u: Update, id: JobId, j: Job)
    requires RowOk(j)
    ensures RowOk(Exec(u, id, j)) <==> RowGuard(u, id, j)
  {
  }

  /** Statements never touch storage keys, and they assign only the node ResetJob names. */
  lemma ExecKeeps(u: Update, id: JobId, j: Job)
    ensures Exec(u, id, j).storageKey == j.storageKey && Exec(u, id, j).engine == j.engine
    ensures var n := Exec(u, id, j).nodeId;
            n == j.nodeId || n.None? || (u.ResetJob? && n == Some(u.node))
  {
  }

  lemma UpdateRows(u: Update, jobs: Jobs, nodes: set<NodeId>)
    requires RowsOk(jobs) && NodesExist(jobs, nodes) && KeysUnique(jobs)
    requires u.ResetJob? ==> u.node in nodes
    requires !(u.BatchCompleteJobs? && SizeUnknown(jobs, u.chosen))
    ensures var r := Apply(u, jobs);
            && (RowsOk(r) <==> forall id :: id in jobs ==> RowGuard(u, id, jobs[id]))
            && NodesExist(r, nodes) && KeysUnique(r)
  {
    hide RowOk, Exec, RowGuard;
    var r := Apply(u, jobs);
    forall id | id in jobs
      ensures r[id] == Exec(u, id, jobs[id])
      ensures RowOk(r[id]) <==> RowGuard(u, id, jobs[id])
      ensures r[id].storageKey == jobs[id].storageKey
      ensures r[id].nodeId.Some? ==> r[id].nodeId.value in nodes
    {
      RowExact(u, id, jobs[id]);
      ExecKeeps(u, id, jobs[id]);
    }
  }

  lemma SameDownloadsKeepJobs(s: Db, t: Db)
    requires JobsKept(s) && t.downloads == s.downloads && t.jobs.Keys <= s.jobs.Keys
    ensures JobsKept(t)
  {
    forall id | id in t.jobs ensures Kept(t, id, {}) {
      assert Kept(s, id, {});
    }
  }

  lemma UpdateExact(s: Db, u: Update)
    requires Inv(s)
    ensures Inv(Next(s, UpdateJobs(u))) <==> Guard(s, UpdateJobs(u))
  {
    hide RowsOk, NodesExist, KeysUnique, DownloadsValid, DownloadsUnique, LinksValid, RowGuard, Exec, JobsKept;
    var a := UpdateJobs(u);
    if u.ResetJob? {
      ResetUnguarded(u);
    }
    if Admissible(s, a) && !(u.BatchCompleteJobs? && SizeUnknown(s.jobs, u.chosen)) {
      UpdateRows(u, s.jobs, s.nodes.Keys);
      SameDownloadsKeepJobs(s, Next(s, a));
    }
  }

  lemma ResetUnguarded(u: Update)
    requires u.ResetJob?
    ensures forall id, j :: RowGuard(u, id, j)
  {
  }

  lemma UnassignExact(j: Job)
    requires RowOk(j) && j.nodeId.Some?
    ensures RowOk(j.(nodeId := None)) <==> j.status == Failed
  {
  }

  lemma DeleteNodeExact(s: Db, n: NodeId)
    requires Inv(s)
    ensures Inv(Next(s, DeleteNode(n))) <==> Guard(s, DeleteNode(n))
  {
    hide RowOk, DownloadsValid, DownloadsUnique, LinksValid, JobsKept;
    var t := Next(s, DeleteNode(n));
    forall id | id in s.jobs
      ensures RowOk(t.jobs[id]) <==> (Assigned(s.jobs[id], n) ==> s.jobs[id].status == Failed)
      ensures t.jobs[id].storageKey == s.jobs[id].storageKey
      ensures t.jobs[id].nodeId.Some? ==> t.jobs[id].nodeId.value in t.nodes.Keys
    {
      if Assigned(s.jobs[id], n) {
        UnassignExact(s.jobs[id]);
      }
    }
    assert t.jobs.Keys == s.jobs.Keys;
    SameDownloadsKeepJobs(s, t);
  }

  lemma DropKeepsRest(s: Db, gone: set<DownloadId>)
    requires Constraints(s)
    ensures Constraints(DropDownloads(s, gone))
  {
    hide NodesExist, KeysUnique;
    var t := DropDownloads(s, gone);
    assert forall d :: d in t.downloads ==> d in s.downloads && t.downloads[d] == s.downloads[d];
    assert LinksValid(t.links, t.users, t.downloads.Keys) by {
      hide DownloadsUnique, DownloadsValid;
      assert forall l :: l in t.links ==> l in s.links && t.links[l] == s.links[l] && t.links[l].downloadId !in gone;
    }
  }

  lemma DropKept(s: Db, gone: set<DownloadId>, id: JobId)
    ensures Kept(DropDownloads(s, gone), id, {}) <==> Kept(s, id, gone)
  {
    var t := DropDownloads(s, gone);
    assert forall d :: d in t.downloads <==> d in s.downloads && d !in gone;
    if Kept(s, id, gone) {
      var d :| d in s.downloads && d !in gone && s.downloads[d].jobId == id;
      assert d in t.downloads && t.downloads[d].jobId == id;
    }
    if Kept(t, id, {}) {
      var d :| d in t.downloads && t.downloads[d].jobId == id;
      assert d in s.downloads && d !in gone && s.downloads[d].jobId == id;
    }
  }

  lemma DropExact(s: Db, gone: set<DownloadId>)
    requires JobsKept(s) && gone <= s.downloads.Keys
    requires forall d :: d in gone ==> s.downloads[d].jobId in s.jobs
    ensures JobsKept(DropDownloads(s, gone)) <==> forall d :: d in gone ==> Kept(s, s.downloads[d].jobId, gone)
  {
    hide Kept;
    var t := DropDownloads(s, gone);
    forall id | id in s.jobs
      ensures Kept(t, id, {}) <==> Kept(s, id, gone)
    {
      DropKept(s, gone, id);
    }
    forall id | id in s.jobs
      ensures Kept(s, id, gone) || exists d :: d in gone && s.downloads[d].jobId == id
    {
      assert Kept(s, id, {});
      KeptOrGone(s, gone, id);
    }
  }

  lemma KeptOrGone(s: Db, gone: set<DownloadId>, id: JobId)
    requires Kept(s, id, {})
    ensures Kept(s, id, gone) || exists d :: d in gone && d in s.downloads && s.downloads[d].jobId == id
  {
    var d :| d in s.downloads && s.downloads[d].jobId == id;
    assert d in gone || Kept(s, id, gone);
  }

  lemma DeleteUserExact(s: Db, u: UserId)
    requires Inv(s)
    ensures Inv(Next(s, DeleteUser(u))) <==> Guard(s, DeleteUser(u))
  {
    hide RowsOk, NodesExist, KeysUnique, DownloadsUnique, JobsKept, Kept;
    var r, t := DropDownloads(s, DownloadsBy(s, u)), Next(s, DeleteUser(u));
    DropKeepsRest(s, DownloadsBy(s, u));
    assert t.jobs == r.jobs == s.jobs && t.downloads == r.downloads;
    assert DownloadsValid(t.downloads, t.users, t.jobs.Keys) && LinksValid(t.links, t.users, t.downloads.Keys);
    DropExact(s, DownloadsBy(s, u));
    if JobsKept(t) { SameDownloadsKeepJobs(t, r); }
    if JobsKept(r) { SameDownloadsKeepJobs(r, t); }
  }

  lemma DeleteDownloadExact(s: Db, d: DownloadId)
    requires Inv(s)
    ensures Inv(Next(s, DeleteDownload(d))) <==> Guard(s, DeleteDownload(d))
  {
    hide RowsOk, NodesExist, KeysUnique, DownloadsUnique, LinksValid, JobsKept, Kept;
    DropKeepsRest(s, {d});
    if d in s.downloads {
      DropExact(s, {d});
    } else {
      SameDownloadsKeepJobs(s, DropDownloads(s, {d}));
    }
  }

  lemma DeleteJobKeepsOthers(s: Db, id: JobId, k: JobId)
    requires Kept(s, k, {}) && k != id
    ensures Kept(Next(s, DeleteJob(id)), k, {})
  {
    var t := Next(s, DeleteJob(id));
    var d :| d in s.downloads && s.downloads[d].jobId == k;
    assert d in t.downloads && t.downloads[d].jobId == k;
  }

  lemma DeleteJobKeeps(s: Db, id: JobId)
    requires Inv(s)
    ensures Inv(Next(s, DeleteJob(id)))
  {
    hide RowOk, LinksValid, DownloadsUnique, Kept;
    var t := Next(s, DeleteJob(id));
    DropKeepsRest(s, DownloadsOf(s, id));
    assert forall d :: d in t.downloads ==> t.downloads[d].jobId != id;
    forall k | k in t.jobs ensures Kept(t, k, {}) {
      DeleteJobKeepsOthers(s, id, k);
    }
  }

  /** A step that only adds downloads keeps the jobs it does not add. */
  lemma MoreDownloadsKeep(s: Db, t: Db, id: JobId)
    requires Kept(s, id, {}) && s.downloads.Keys <= t.downloads.Keys
    requires forall d :: d in s.downloads ==> t.downloads[d] == s.downloads[d]
    ensures Kept(t, id, {})
  {
    var d :| d in s.downloads && s.downloads[d].jobId == id;
    assert d in t.downloads && t.downloads[d].jobId == id;
  }

  lemma FreshRowOk(n: NewJob)
    ensures RowOk(FreshRow(n))
  {
  }

  lemma AddRow(jobs: Jobs, id: JobId, n: NewJob, nodes: set<NodeId>)
    requires RowsOk(jobs) && NodesExist(jobs, nodes) && KeysUnique(jobs)
    requires id !in jobs && !KeyTaken(jobs, n.storageKey) && n.node in nodes
    ensures var r := jobs[id := FreshRow(n)]; RowsOk(r) && NodesExist(r, nodes) && KeysUnique(r)
  {
    hide RowOk;
    FreshRowOk(n);
    assert forall k :: k in jobs ==> jobs[k].storageKey != n.storageKey;
  }

  lemma CreateJobKeeps(s: Db, a: Action)
    requires Inv(s) && Admissible(s, a) && a.CreateJob?
    ensures Inv(Next(s, a))
  {
    hide RowsOk, NodesExist, KeysUnique, Kept;
    var t := Next(s, a);
    AddRow(s.jobs, a.id, a.row, s.nodes.Keys);
    assert Download(a.user, a.id) !in s.downloads.Values;
    assert DownloadsUnique(t.downloads) && DownloadsValid(t.downloads, t.users, t.jobs.Keys) by {
      hide LinksValid;
      assert s.users + {a.user} == t.users && s.jobs.Keys + {a.id} == t.jobs.Keys;
    }
    hide DownloadsUnique, DownloadsValid;
    assert LinksValid(t.links, t.users, t.downloads.Keys);
    forall id | id in t.jobs ensures Kept(t, id, {}) {
      if id in s.jobs {
        MoreDownloadsKeep(s, t, id);
      } else {
        NewlyKept(t, id, a.download);
      }
    }
  }

  lemma NewlyKept(t: Db, id: JobId, d: DownloadId)
    requires d in t.downloads && t.downloads[d].jobId == id
    ensures Kept(t, id, {})
  {
  }

  lemma CreateDownloadKeeps(s: Db, a: Action)
    requires Inv(s) && Admissible(s, a) && a.CreateDownload?
    ensures Inv(Next(s, a))
  {
    hide RowsOk, NodesExist, KeysUnique, Kept;
    var t := Next(s, a);
    assert DownloadsUnique(t.downloads) by {
      assert forall d :: d in s.downloads ==> s.downloads[d] in s.downloads.Values;
    }
    assert LinksValid(t.links, t.users, t.downloads.Keys);
    forall id | id in t.jobs ensures Kept(t, id, {}) {
      MoreDownloadsKeep(s, t, id);
    }
  }

  lemma OtherKeeps(s: Db, a: Action)
    requires Inv(s) && Admissible(s, a)
    requires a.CreateLink? || a.RewriteLinks? || a.InsertUser? || a.UpsertNode? || a.SetNodeOnline?
    ensures Inv(Next(s, a))
  {
    hide RowsOk, KeysUnique, DownloadsUnique, Rewritten, JobsKept;
    var t := Next(s, a);
    assert NodesExist(t.jobs, t.nodes.Keys);
    assert DownloadsValid(t.downloads, t.users, t.jobs.Keys);
    assert LinksValid(t.links, t.users, t.downloads.Keys);
    SameDownloadsKeepJobs(s, t);
  }

  /** A step keeps the invariant exactly when its guard holds. */
  lemma StepExact(s: Db, a: Action)
    requires Inv(s)
    ensures Inv(Next(s, a)) <==> Guard(s, a)
  {
    hide Inv, Guard, Next;
    if a.UpdateJobs? {
      UpdateExact(s, a.update);
    } else if a.DeleteNode? {
      DeleteNodeExact(s, a.node);
    } else if a.DeleteUser? {
      DeleteUserExact(s, a.user);
    } else if a.DeleteDownload? {
      DeleteDownloadExact(s, a.download);
    } else {
      Unguarded(s, a);
      if !Admissible(s, a) {
        InadmissibleSkips(s, a);
      } else if a.DeleteJob? {
        DeleteJobKeeps(s, a.id);
      } else if a.CreateJob? {
        CreateJobKeeps(s, a);
      } else if a.CreateDownload? {
        CreateDownloadKeeps(s, a);
      } else {
        OtherKeeps(s, a);
      }
    }
  }

  lemma Unguarded(s: Db, a: Action)
    requires !a.UpdateJobs? && !a.DeleteNode? && !a.DeleteUser? && !a.DeleteDownload?
    ensures Guard(s, a)
  {
  }

  lemma InadmissibleSkips(s: Db, a: Action)
    requires !Admissible(s, a)
    ensures Next(s, a) == s
  {
  }

  // ---------- Runs ----------

  /** Every step of the run meets its guard when it is taken. */
  ghost predicate Allowed(s: Db, actions: seq<Action>)
    decreases |actions|
  {
    actions != [] ==> Guard(s, actions[0]) && Allowed(Next(s, actions[0]), actions[1..])
  }

  lemma {:induction false} RunKeepsInv(s: Db, actions: seq<Action>)
    requires Inv(s) && Allowed(s, actions)
    ensures Inv(Run(s, actions))
    decreases |actions|
  {
    if actions != [] {
      StepExact(s, actions[0]);
      RunKeepsInv(Next(s, actions[0]), actions[1..]);
    }
  }

  lemma {:induction false} AllowedConcat(s: Db, xs: seq<Action>, ys: seq<Action>)
    ensures Allowed(s, xs + ys) <==> Allowed(s, xs) && Allowed(Run(s, xs), ys)
    decreases |xs|
  {
    if xs == [] {
      assert xs + ys == ys;
    } else {
      assert (xs + ys)[1..] == xs[1..] + ys;
      AllowedConcat(Next(s, xs[0]), xs[1..], ys);
    }
  }
}
