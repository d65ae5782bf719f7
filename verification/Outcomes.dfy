/** What single entry points leave of each row, worked out from the statements they issue. */
module Outcomes {
  import opened Wrappers
  import opened Reports
  import opened Tables
  import opened Protocol
  import opened Histories
  import Events

  /** A row after its node went offline: running jobs fail, local content is set aside. */
  function Offline(j: Job): Job {
    if Running(j) then j.(status := Failed, errorMessage := Some("node went offline"))
    else if j.status == Completed && j.fileLocation.Some? && IsLocalUri(j.fileLocation.value) then j.(status := Inactive)
    else j
  }

  lemma OfflineRow(s: Db, n: NodeId, id: JobId)
    requires id in s.jobs
    ensures var t := Run(s, Events.JobsOffline(n));
            t.jobs.Keys == s.jobs.Keys && t.nodes == s.nodes
            && t.jobs[id] == if Assigned(s.jobs[id], n) then Offline(s.jobs[id]) else s.jobs[id]
  {
    hide Next, Apply;
    var a, b := MarkNodeActiveJobsFailed(n), MarkNodeCompletedJobsInactive(n);
    RunTwo(s, UpdateJobs(a), UpdateJobs(b));
    NextUpdate(s, a);
    NextUpdate(s.(jobs := Apply(a, s.jobs)), b);
    ApplyRow(a, s.jobs, id);
    ApplyRow(b, Apply(a, s.jobs), id);
  }

  lemma ApplyRow(u: Update, jobs: Jobs, id: JobId)
    requires id in jobs && !u.BatchCompleteJobs?
    ensures Apply(u, jobs).Keys == jobs.Keys && Apply(u, jobs)[id] == Exec(u, id, jobs[id])
  {
  }

  lemma {:induction false} AllOfflineRow(s: Db, nodes: seq<NodeId>, id: JobId)
    requires id in s.jobs
    ensures var t := Run(s, Events.AllJobsOffline(nodes));
            t.jobs.Keys == s.jobs.Keys && t.nodes == s.nodes
            && t.jobs[id] == if s.jobs[id].nodeId.Some? && s.jobs[id].nodeId.value in nodes
                             then Offline(s.jobs[id]) else s.jobs[id]
    decreases |nodes|
  {
    hide Next;
    if nodes == [] {
      RunNothing(s);
    } else {
      var before, last := nodes[..|nodes| - 1], nodes[|nodes| - 1];
      AllOfflineRow(s, before, id);
      RunConcat(s, Events.AllJobsOffline(before), Events.JobsOffline(last));
      OfflineRow(Run(s, Events.AllJobsOffline(before)), last, id);
      assert forall n :: n in nodes <==> n in before || n == last;
    }
  }

  lemma {:induction false} SetOfflineKeepsJobs(s: Db, nodes: seq<NodeId>)
    ensures Run(s, Events.SetOffline(nodes)).jobs == s.jobs
    decreases |nodes|
  {
    if nodes == [] {
      RunNothing(s);
    } else {
      var before, last := nodes[..|nodes| - 1], nodes[|nodes| - 1];
      SetOfflineKeepsJobs(s, before);
      RunThen(s, Events.SetOffline(before), SetNodeOnline(last, false));
    }
  }

  /**
   The reaper: on stale nodes running jobs fail and local content is set aside; elsewhere just the old
   inactive jobs of online nodes are restored. Nothing is both set aside and restored.
   */
  lemma AfterReap(s: Db, stale: seq<NodeId>, online: set<NodeId>, oldRows: set<JobId>, id: JobId)
    requires id in s.jobs && forall n :: n in stale ==> n !in online
    ensures var j, t := s.jobs[id], Events.After(s, Events.Reap(stale, online, oldRows));
            id in t.jobs
            && t.jobs[id] == if j.nodeId.Some? && j.nodeId.value in stale then Offline(j)
                             else if j.status == Inactive && j.nodeId.Some? && j.nodeId.value in online && id in oldRows
                             then j.(status := Completed)
                             else j
  {
    hide Next, Apply;
    var restore := RestoreStaleInactiveJobs(online, oldRows);
    var a := Run(s, Events.SetOffline(stale));
    var b := Run(a, Events.AllJobsOffline(stale));
    SetOfflineKeepsJobs(s, stale);
    AllOfflineRow(a, stale, id);
    RunConcat(s, Events.SetOffline(stale), Events.AllJobsOffline(stale));
    RunThen(s, Events.SetOffline(stale) + Events.AllJobsOffline(stale), UpdateJobs(restore));
    NextUpdate(b, restore);
    ApplyRow(restore, b.jobs, id);
  }

  /** Registration leaves the node no running job and no claimed upload, and touches nothing else. */
  lemma AfterRegister(s: Db, n: NodeId, id: JobId)
    requires id in s.jobs
    ensures var j, t := s.jobs[id], Events.After(s, Events.Register(n));
            id in t.jobs
            && (!Assigned(j, n) ==> t.jobs[id] == j)
            && (Assigned(j, n) ==>
                  && !Running(t.jobs[id]) && t.jobs[id].uploadStatus != Uploading
                  && (!Running(j) && j.uploadStatus != Uploading ==> t.jobs[id] == j)
                  && (j.status == Completed && j.uploadStatus == Uploading ==> Claimable(t.jobs[id], n))
                  && t.jobs[id].fileLocation == j.fileLocation)
  {
    hide Next, Apply;
    var a, b := MarkNodeActiveJobsFailed(n), ResetStuckUploads(n);
    RunThree(s, UpsertNode(n, false), UpdateJobs(a), UpdateJobs(b));
    var r := Next(s, UpsertNode(n, false));
    assert r.jobs == s.jobs by { NodesOnly(s, n); }
    NextUpdate(r, a);
    NextUpdate(r.(jobs := Apply(a, r.jobs)), b);
    ApplyRow(a, r.jobs, id);
    ApplyRow(b, Apply(a, r.jobs), id);
  }

  lemma NodesOnly(s: Db, n: NodeId)
    ensures Next(s, UpsertNode(n, false)).jobs == s.jobs
  {
  }

  /** Deleting an offline node fails its jobs and unassigns them; other rows and the content of links stay. */
  lemma AfterRemoveNode(s: Db, n: NodeId, id: JobId)
    requires id in s.jobs && n in s.nodes && !s.nodes[n].isOnline
    ensures var j, t := s.jobs[id], Events.After(s, Events.RemoveNode(n));
            && n !in t.nodes && t.links == s.links && t.downloads == s.downloads
            && id in t.jobs
            && t.jobs[id] == if Assigned(j, n)
                             then j.(status := Failed, errorMessage := Some("node deleted by admin"), nodeId := None)
                             else j
  {
    hide Apply;
    var fail := FailNodeJobsForDeletion(n);
    RunTwo(s, UpdateJobs(fail), DeleteNode(n));
    NextUpdate(s, fail);
    ApplyRow(fail, s.jobs, id);
  }

  // ---------- Nodes ----------

  /** Registration and the controller's own start put a node online, and only the first one says what it is. */
  lemma AfterUpsert(s: Db, n: NodeId, m: NodeId, isController: bool)
    ensures var t := Next(s, UpsertNode(n, isController));
            && n in t.nodes && t.nodes[n].isOnline
            && t.nodes[n].isController == (if n in s.nodes then s.nodes[n].isController else isController)
            && (m != n ==> (m in t.nodes <==> m in s.nodes) && (m in s.nodes ==> t.nodes[m] == s.nodes[m]))
            && t == s.(nodes := t.nodes)
  {
  }

  lemma SetOnline(s: Db, n: NodeId, online: bool)
    ensures var t := Next(s, SetNodeOnline(n, online));
            && t == s.(nodes := t.nodes) && t.nodes.Keys == s.nodes.Keys
            && forall m :: m in s.nodes ==> t.nodes[m] == if m == n then s.nodes[m].(isOnline := online) else s.nodes[m]
  {
  }

  /**
   A ping of a node that is not connected completes exactly its inactive jobs and puts it online; of a
   connected one only the latter; of an unknown one nothing.
   */
  lemma AfterHeartbeat(s: Db, n: NodeId, connected: bool, id: JobId)
    requires id in s.jobs
    ensures var j, t := s.jobs[id], Events.After(s, Events.Heartbeat(n, connected));
            && id in t.jobs
            && (n !in s.nodes ==> t == s)
            && (n in s.nodes ==> n in t.nodes && t.nodes[n] == s.nodes[n].(isOnline := true))
            && t.jobs[id] == if n in s.nodes && !connected && Assigned(j, n) && j.status == Inactive
                             then j.(status := Completed) else j
  {
    hide Next, Apply;
    var restore := RestoreNodeInactiveJobs(n);
    SetOnline(s, n, true);
    if connected {
      RunOne(s, SetNodeOnline(n, true));
      if n !in s.nodes {
      }
    } else if n !in s.nodes {
      RunNothing(s);
    } else {
      RunTwo(s, UpdateJobs(restore), SetNodeOnline(n, true));
      NextUpdate(s, restore);
      ApplyRow(restore, s.jobs, id);
      SetOnline(Next(s, UpdateJobs(restore)), n, true);
    }
  }

  /** A node that leaves is offline, its running jobs have failed and its local content is set aside. */
  lemma AfterDeregister(s: Db, n: NodeId, id: JobId)
    requires id in s.jobs
    ensures var j, t := s.jobs[id], Events.After(s, Events.Deregister(n));
            && id in t.jobs && t.jobs[id] == (if Assigned(j, n) then Offline(j) else j)
            && (n in s.nodes ==> n in t.nodes && !t.nodes[n].isOnline)
  {
    hide Next, Apply, Offline;
    RunConcat(s, [SetNodeOnline(n, false)], Events.JobsOffline(n));
    RunOne(s, SetNodeOnline(n, false));
    SetOnline(s, n, false);
    OfflineRow(Next(s, SetNodeOnline(n, false)), n, id);
  }

  // ---------- Uploads ----------

  /** Claiming marks exactly the completed jobs of the node whose upload waits or has failed. */
  lemma AfterClaim(s: Db, n: NodeId, id: JobId)
    requires id in s.jobs
    ensures var j, t := s.jobs[id], Events.After(s, Events.ListPendingUploads(n));
            && id in t.jobs
            && t.jobs[id] == if j.nodeId == Some(n) && j.status == Completed
                                && (j.uploadStatus == UploadPending || j.uploadStatus == UploadFailed)
                             then j.(uploadStatus := Uploading) else j
  {
    hide Next, Apply;
    RunOne(s, UpdateJobs(ClaimPendingUploads(n)));
    NextUpdate(s, ClaimPendingUploads(n));
    ApplyRow(ClaimPendingUploads(n), s.jobs, id);
  }

  /** A finished upload moves its job to the remote copy, off its node, and no other; a failed one is marked. */
  lemma AfterUpload(s: Db, target: JobId, uri: string, id: JobId)
    requires id in s.jobs
    ensures var j, t := s.jobs[id], Events.After(s, Events.UploadSucceeded(target, uri));
            && id in t.jobs
            && t.jobs[id] == (if id == target
                              then j.(fileLocation := Some(uri), uploadStatus := Uploaded, nodeId := None) else j)
    ensures var j, t := s.jobs[id], Events.After(s, Events.UploadErred(target));
            && id in t.jobs && t.jobs[id] == (if id == target then j.(uploadStatus := UploadFailed) else j)
  {
    hide Next, Apply;
    UploadErredRow(s, target, id);
    var complete := CompleteUpload(target, uri);
    if target in s.jobs {
      var rewrite := RewriteLinks(target, s.jobs[target].engine + "/" + s.jobs[target].storageKey, uri);
      RunTwo(s, UpdateJobs(complete), rewrite);
      NextUpdate(s, complete);
      ApplyRow(complete, s.jobs, id);
      RewritingKeepsJobs(Next(s, UpdateJobs(complete)), rewrite);
    } else {
      RunNothing(s);
    }
  }

  lemma UploadErredRow(s: Db, target: JobId, id: JobId)
    requires id in s.jobs
    ensures var j, t := s.jobs[id], Events.After(s, Events.UploadErred(target));
            id in t.jobs && t.jobs[id] == (if id == target then j.(uploadStatus := UploadFailed) else j)
  {
    hide Next, Apply;
    var erred := SetUploadStatus(target, UploadFailed);
    RunOne(s, UpdateJobs(erred));
    NextUpdate(s, erred);
    ApplyRow(erred, s.jobs, id);
  }

  lemma RewritingKeepsJobs(s: Db, a: Action)
    requires a.RewriteLinks?
    ensures Next(s, a).jobs == s.jobs
  {
  }

  /** An upload rewrites the links of its own job that start with "engine/key", and no others. */
  lemma AfterUploadLinks(s: Db, target: JobId, uri: string, l: LinkId)
    requires target in s.jobs && l in s.links
    ensures var t, link := Events.After(s, Events.UploadSucceeded(target, uri)), s.links[l];
            && l in t.links && t.links[l].downloadId == link.downloadId && t.links[l].token == link.token
            && t.links[l].userId == link.userId
            && t.links[l].storageUri
               == if link.downloadId in s.downloads && s.downloads[link.downloadId].jobId == target
                  then Rewritten(link.storageUri, s.jobs[target].engine + "/" + s.jobs[target].storageKey, uri)
                  else link.storageUri
  {
    hide Apply, Rewritten, Next;
    var complete := CompleteUpload(target, uri);
    var rewrite := RewriteLinks(target, s.jobs[target].engine + "/" + s.jobs[target].storageKey, uri);
    RunTwo(s, UpdateJobs(complete), rewrite);
    NextUpdate(s, complete);
    RewritingLink(Next(s, UpdateJobs(complete)), rewrite, l);
  }

  lemma RewritingLink(s: Db, a: Action, l: LinkId)
    requires a.RewriteLinks? && l in s.links
    ensures var t, link := Next(s, a), s.links[l];
            && l in t.links
            && t.links[l] == if link.downloadId in s.downloads && s.downloads[link.downloadId].jobId == a.job
                             then link.(storageUri := Rewritten(link.storageUri, a.oldPrefix, a.newPrefix)) else link
  {
    hide Rewritten;
  }

  // ---------- The rest ----------

  lemma FailedRow(id: JobId, target: JobId, j: Job)
    ensures Exec(FailJob(target, "stale - no status updates"), id, j)
         == if id == target then j.(status := Failed, errorMessage := Some("stale - no status updates"), fileLocation := None) else j
  {
  }

  /** The fallback for stale jobs fails exactly the listed jobs, clears their location and says why. */
  lemma {:induction false} AfterFailStale(s: Db, ids: seq<JobId>, id: JobId)
    requires id in s.jobs
    ensures var j, t := s.jobs[id], Events.After(s, Events.FailStale(ids));
            && id in t.jobs && t.nodes == s.nodes && t.downloads == s.downloads
            && t.jobs[id] == if id in ids then j.(status := Failed, errorMessage := Some("stale - no status updates"), fileLocation := None)
                             else j
    decreases |ids|
  {
    hide Next, Apply;
    if ids == [] {
      RunNothing(s);
    } else {
      var before, last := ids[..|ids| - 1], ids[|ids| - 1];
      AfterFailStale(s, before, id);
      assert id in ids <==> id in before || id == last;
      var t, fail := Run(s, Events.FailAll(before)), FailJob(last, "stale - no status updates");
      RunThen(s, Events.FailAll(before), UpdateJobs(fail));
      hide Run;
      NextUpdate(t, fail);
      ApplyRow(fail, t.jobs, id);
      hide Exec;
      FailedRow(id, last, t.jobs[id]);
    }
  }

  /** A new user, and a new link of a user to a download, are there afterwards; nothing else changes. */
  lemma AfterSignUpAndLink(s: Db, u: UserId, l: LinkId, entry: Link)
    ensures Events.After(s, Events.SignUp(u)) == s.(users := s.users + {u})
    ensures l !in s.links && entry.userId in s.users && entry.downloadId in s.downloads ==>
              Events.After(s, Events.GenerateLink(l, entry)) == s.(links := s.links[l := entry])
  {
    RunOne(s, InsertUser(u));
    RunOne(s, CreateLink(l, entry));
  }

  // ---------- The controller's start ----------

  /** What the start makes of a row of the controller's own node, given the keys on its disk. */
  function Restarted(j: Job, diskKeys: set<string>): Job {
    var o := Offline(j);
    if o.status != Inactive then o
    else if o.storageKey in diskKeys then o.(status := Completed)
    else o.(status := Failed, errorMessage := Some("files not found on node after restart"), fileLocation := None)
  }

  lemma ReconciledRow(s: Db, n: NodeId, diskKeys: set<string>, id: JobId)
    requires id in s.jobs
    ensures var j, t := s.jobs[id], Run(s, Events.Reconciliation(n, diskKeys));
            && t.jobs.Keys == s.jobs.Keys && t.nodes == s.nodes
            && t.jobs[id] == if !(Assigned(j, n) && j.status == Inactive) then j
                             else if j.storageKey in diskKeys then j.(status := Completed)
                             else j.(status := Failed, errorMessage := Some("files not found on node after restart"), fileLocation := None)
  {
    hide Next, Apply;
    var a, b := RestoreNodeInactiveJobsWithKeys(n, diskKeys), FailNodeInactiveJobsMissingKeys(n);
    RunTwo(s, UpdateJobs(a), UpdateJobs(b));
    NextUpdate(s, a);
    NextUpdate(s.(jobs := Apply(a, s.jobs)), b);
    ApplyRow(a, s.jobs, id);
    ApplyRow(b, Apply(a, s.jobs), id);
  }

  lemma {:induction false} SetOfflineNodes(s: Db, nodes: seq<NodeId>, m: NodeId)
    requires m in s.nodes
    ensures var t := Run(s, Events.SetOffline(nodes));
            m in t.nodes && t.nodes[m] == if m in nodes then s.nodes[m].(isOnline := false) else s.nodes[m]
    decreases |nodes|
  {
    hide Next;
    if nodes == [] {
      RunNothing(s);
    } else {
      var before, last := nodes[..|nodes| - 1], nodes[|nodes| - 1];
      SetOfflineNodes(s, before, m);
      RunThen(s, Events.SetOffline(before), SetNodeOnline(last, false));
      SetOnline(Run(s, Events.SetOffline(before)), last, false);
      assert m in nodes <==> m in before || m == last;
    }
  }

  /**
   The controller's start: its node is online, stale nodes are not; rows of its own node are checked against
   the disk, those of stale nodes go offline, and all others stay.
   */
  lemma AfterStartController(s: Db, n: NodeId, stale: seq<NodeId>, diskKeys: set<string>, id: JobId, m: NodeId)
    requires id in s.jobs && n !in stale && m in s.nodes
    ensures var j, t := s.jobs[id], Events.After(s, Events.StartController(n, stale, diskKeys));
            && n in t.nodes && t.nodes[n].isOnline
            && m in t.nodes && (m in stale ==> !t.nodes[m].isOnline)
            && (m !in stale && m != n ==> t.nodes[m] == s.nodes[m])
            && id in t.jobs
            && t.jobs[id] == if Assigned(j, n) then Restarted(j, diskKeys)
                             else if j.nodeId.Some? && j.nodeId.value in stale then Offline(j)
                             else j
  {
    hide Next, Apply, Offline;
    var upsert, out, jobsOut := [UpsertNode(n, true)], Events.SetOffline(stale), Events.AllJobsOffline(stale);
    var own, rest := Events.JobsOffline(n), Events.Reconciliation(n, diskKeys);
    var a := Next(s, UpsertNode(n, true));
    var b := Run(a, out);
    var c := Run(b, jobsOut);
    var d := Run(c, own);
    RunOne(s, UpsertNode(n, true));
    RunConcat(s, upsert, out);
    RunConcat(s, upsert + out, jobsOut);
    RunConcat(s, upsert + out + jobsOut, own);
    RunConcat(s, upsert + out + jobsOut + own, rest);
    AfterUpsert(s, n, m, true);
    SetOfflineKeepsJobs(a, stale);
    SetOfflineNodes(a, stale, m);
    SetOfflineNodes(a, stale, n);
    AllOfflineRow(b, stale, id);
    OfflineRow(c, n, id);
    ReconciledRow(d, n, diskKeys, id);
    assert Offline(s.jobs[id]).nodeId == s.jobs[id].nodeId by { OfflineStays(s.jobs[id]); }
  }

  lemma OfflineStays(j: Job)
    ensures Offline(j).nodeId == j.nodeId && Offline(j).storageKey == j.storageKey
  {
  }
}
