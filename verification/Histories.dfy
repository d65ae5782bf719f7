/** What holds across the steps of every run of the job table. */
module Histories {
  import opened Wrappers
  import opened Reports
  import opened Tables
  import opened Protocol

  // ---------- Listing files ----------

  /** Where ListFiles looks. */
  datatype FileSource = FromStorage(uri: string) | FromNode(node: NodeId) | NoNodeAssigned

  function SourceOf(j: Job): FileSource {
    if j.nodeId.None? && j.fileLocation.Some? && IsRemoteUri(j.fileLocation.value)
    then FromStorage(j.fileLocation.value)
    else if j.nodeId.None? then NoNodeAssigned
    else FromNode(j.nodeId.value)
  }

  /**
   In every run from the empty database whose steps meet their guards, listing the files of a job
   that is not failed never ends in "no node assigned", and a completed job is listed from storage
   exactly when its upload is done.
   */
  lemma FilesAreFound(actions: seq<Action>, id: JobId)
    requires Allowed(EMPTY, actions)
    ensures var s := Run(EMPTY, actions);
            id in s.jobs && s.jobs[id].status != Failed ==>
              && !SourceOf(s.jobs[id]).NoNodeAssigned?
              && (s.jobs[id].status == Completed ==>
                    var j := s.jobs[id];
                    if j.uploadStatus == Uploaded then j.fileLocation.Some? && SourceOf(j) == FromStorage(j.fileLocation.value)
                    else j.nodeId.Some? && SourceOf(j) == FromNode(j.nodeId.value))
  {
    RunKeepsInv(EMPTY, actions);
  }

  // ---------- Claiming uploads ----------

  function StateAt(s: Db, actions: seq<Action>, i: nat): Db
    requires i <= |actions|
  {
    Run(s, actions[..i])
  }

  lemma StateAfter(s: Db, actions: seq<Action>, i: nat)
    requires i < |actions|
    ensures StateAt(s, actions, i + 1) == Next(StateAt(s, actions, i), actions[i])
  {
    assert actions[..i + 1] == actions[..i] + [actions[i]];
    RunThen(s, actions[..i], actions[i]);
  }

  /** The step claims the job's upload for a node. */
  predicate Claims(s: Db, a: Action, id: JobId) {
    a.UpdateJobs? && a.update.ClaimPendingUploads? && id in s.jobs && Claimable(s.jobs[id], a.update.node)
  }

  /** The step gives the upload back: a failed report, a stuck-upload reset of the job's node, or a new completion. */
  predicate Releases(s: Db, a: Action, id: JobId) {
    && a.UpdateJobs?
    && match a.update
       case SetUploadStatus(target, us) => target == id && (us == UploadFailed || us == UploadPending)
       case ResetStuckUploads(n) => id in s.jobs && Assigned(s.jobs[id], n) && s.jobs[id].uploadStatus == Uploading
       case BatchCompleteJobs(chosen, uploadPending) => id in chosen && uploadPending
       case _ => false
  }

  /** No claim can take the job's upload. */
  predicate NotPending(s: Db, id: JobId) {
    id in s.jobs ==> s.jobs[id].uploadStatus != UploadPending && s.jobs[id].uploadStatus != UploadFailed
  }

  /** The step makes an upload that no claim could take claimable. */
  predicate GivesBack(s: Db, a: Action, id: JobId) {
    NotPending(s, id) && !NotPending(Next(s, a), id)
  }

  lemma GivingBackReleases(s: Db, a: Action, id: JobId)
    requires GivesBack(s, a, id)
    ensures Releases(s, a, id)
  {
    if !Releases(s, a, id) {
    }
  }

  lemma {:induction false} GivenBack(s: Db, actions: seq<Action>, i: nat, j: nat, id: JobId) returns (k: nat)
    requires i <= j <= |actions| && NotPending(StateAt(s, actions, i), id) && !NotPending(StateAt(s, actions, j), id)
    ensures i <= k < j && GivesBack(StateAt(s, actions, k), actions[k], id)
    decreases j - i
  {
    hide NotPending, Next, StateAt;
    StateAfter(s, actions, i);
    if NotPending(StateAt(s, actions, i + 1), id) {
      k := GivenBack(s, actions, i + 1, j, id);
    } else {
      k := i;
    }
  }

  /** Between two claims of one upload, in any run at all, some step gave the upload back. */
  lemma ClaimsAlternate(s: Db, actions: seq<Action>, i: nat, j: nat, id: JobId)
    requires i < j < |actions|
    requires Claims(StateAt(s, actions, i), actions[i], id) && Claims(StateAt(s, actions, j), actions[j], id)
    ensures exists k :: i < k < j && GivesBack(StateAt(s, actions, k), actions[k], id)
                                  && Releases(StateAt(s, actions, k), actions[k], id)
  {
    hide Releases, Run, GivesBack;
    StateAfter(s, actions, i);
    var k := GivenBack(s, actions, i + 1, j, id);
    GivingBackReleases(StateAt(s, actions, k), actions[k], id);
  }

  /** The jobs a step claims. */
  function Batch(s: Db, a: Action): set<JobId> {
    set id | id in s.jobs && Claims(s, a, id)
  }

  /** Batches of claims have no job in common unless an upload was given back in between. */
  lemma BatchesAreDisjoint(s: Db, actions: seq<Action>, i: nat, j: nat)
    requires i < j < |actions|
    requires forall k, id :: i < k < j ==> !GivesBack(StateAt(s, actions, k), actions[k], id)
    ensures Batch(StateAt(s, actions, i), actions[i]) !! Batch(StateAt(s, actions, j), actions[j])
  {
    hide Claims, GivesBack, StateAt;
    forall id | id in Batch(StateAt(s, actions, i), actions[i])
      ensures id !in Batch(StateAt(s, actions, j), actions[j])
    {
      if id in Batch(StateAt(s, actions, j), actions[j]) {
        ClaimsAlternate(s, actions, i, j, id);
        assert false;
      }
    }
  }

  // ---------- Runs without deletions ----------

  predicate Deletes(a: Action) {
    a.DeleteJob? || a.DeleteDownload? || a.DeleteUser?
  }

  /** Jobs keep their identity and storage key, downloads stay. */
  ghost predicate Extends(s: Db, t: Db) {
    && (forall id :: id in s.jobs ==> id in t.jobs && t.jobs[id].storageKey == s.jobs[id].storageKey)
    && (forall d :: d in s.downloads ==> d in t.downloads && t.downloads[d] == s.downloads[d])
  }

  lemma StepExtends(s: Db, a: Action)
    requires !Deletes(a)
    ensures Extends(s, Next(s, a))
  {
    hide Exec;
    if a.UpdateJobs? {
      forall id | id in s.jobs ensures Exec(a.update, id, s.jobs[id]).storageKey == s.jobs[id].storageKey {
        ExecKeeps(a.update, id, s.jobs[id]);
      }
    }
  }

  lemma {:induction false} RunExtends(s: Db, actions: seq<Action>)
    requires forall i :: 0 <= i < |actions| ==> !Deletes(actions[i])
    ensures Extends(s, Run(s, actions))
    decreases |actions|
  {
    hide Next;
    if actions != [] {
      StepExtends(s, actions[0]);
      RunExtends(Next(s, actions[0]), actions[1..]);
    }
  }

  // ---------- Offline and back ----------

  /** MarkNodeJobsForOffline. */
  function TakeOffline(jobs: Jobs, n: NodeId): Jobs {
    Apply(MarkNodeCompletedJobsInactive(n), Apply(MarkNodeActiveJobsFailed(n), jobs))
  }

  function BackOnline(jobs: Jobs, n: NodeId): Jobs {
    Apply(RestoreNodeInactiveJobs(n), jobs)
  }

  /** What an outage leaves of a row: running jobs have failed, nothing else has changed. */
  function AfterOutage(j: Job, n: NodeId): Job {
    if Assigned(j, n) && Running(j) then j.(status := Failed, errorMessage := Some("node went offline")) else j
  }

  lemma OutageRow(jobs: Jobs, n: NodeId, id: JobId)
    requires id in jobs
    ensures id in BackOnline(TakeOffline(jobs, n), n)
    ensures BackOnline(TakeOffline(jobs, n), n)[id] == AfterOutage(jobs[id], n)
       <==> !(Assigned(jobs[id], n) && jobs[id].status == Inactive)
  {
    hide Exec, AfterOutage;
    OutageExec(id, jobs[id], n);
  }

  lemma OutageExec(id: JobId, j: Job, n: NodeId)
    ensures Exec(RestoreNodeInactiveJobs(n), id, Exec(MarkNodeCompletedJobsInactive(n), id, Exec(MarkNodeActiveJobsFailed(n), id, j)))
            == AfterOutage(j, n)
       <==> !(Assigned(j, n) && j.status == Inactive)
  {
  }

  /** An outage with a blind restore changes only running jobs, exactly when no job of the node was inactive before. */
  lemma OutageRoundTrip(jobs: Jobs, n: NodeId)
    ensures (forall id :: id in jobs ==>
               id in BackOnline(TakeOffline(jobs, n), n)
               && BackOnline(TakeOffline(jobs, n), n)[id] == AfterOutage(jobs[id], n))
       <==> (forall id :: id in jobs && Assigned(jobs[id], n) ==> jobs[id].status != Inactive)
  {
    hide BackOnline, TakeOffline, AfterOutage;
    forall id | id in jobs
      ensures id in BackOnline(TakeOffline(jobs, n), n)
      ensures BackOnline(TakeOffline(jobs, n), n)[id] == AfterOutage(jobs[id], n)
         <==> !(Assigned(jobs[id], n) && jobs[id].status == Inactive)
    {
      OutageRow(jobs, n, id);
    }
  }

  /** The node whose rows alone a statement reads and changes. */
  function Scope(u: Update): Option<NodeId> {
    match u
    case MarkNodeActiveJobsFailed(n) => Some(n)
    case FailNodeJobsForDeletion(n) => Some(n)
    case MarkNodeCompletedJobsInactive(n) => Some(n)
    case RestoreNodeInactiveJobs(n) => Some(n)
    case RestoreNodeInactiveJobsWithKeys(n, _) => Some(n)
    case FailNodeInactiveJobsMissingKeys(n) => Some(n)
    case ClaimPendingUploads(n) => Some(n)
    case ResetStuckUploads(n) => Some(n)
    case _ => None
  }

  /** A scoped statement leaves other nodes' rows alone and hands no row to another node. */
  lemma ScopedExec(u: Update, id: JobId, j: Job)
    requires Scope(u).Some?
    ensures !Assigned(j, Scope(u).value) ==> Exec(u, id, j) == j
    ensures Assigned(j, Scope(u).value) ==> Exec(u, id, j).nodeId == j.nodeId || Exec(u, id, j).nodeId == None
  {
  }

  /** Statements scoped to different nodes commute. */
  lemma ScopedCommute(u: Update, v: Update, jobs: Jobs)
    requires Scope(u).Some? && Scope(v).Some? && Scope(u) != Scope(v)
    ensures Apply(u, Apply(v, jobs)) == Apply(v, Apply(u, jobs))
  {
    hide Exec;
    forall id | id in jobs
      ensures Exec(u, id, Exec(v, id, jobs[id])) == Exec(v, id, Exec(u, id, jobs[id]))
    {
      var j := jobs[id];
      ScopedExec(u, id, j);
      ScopedExec(v, id, j);
      ScopedExec(u, id, Exec(v, id, j));
      ScopedExec(v, id, Exec(u, id, j));
    }
  }

  // ---------- What the guards rule out ----------

  /**
   Why Add is taken as one step: a completion report that arrives between the dispatch and Add's
   last update is overwritten, and the job stays active; in the other order it ends completed.
   */
  lemma EarlyCompletionIsOverwritten(n: NewJob, r: StatusReport, uploadPending: bool, gid: string, location: string)
    requires IsLocalUri(location)
    ensures var complete := BatchCompleteJobs(map[1 := r], uploadPending);
            var activate := UpdateJobStatus(1, Active, gid, "", location);
            var row := FreshRow(n);
            && !RowGuard(complete, 1, row)
            && Exec(activate, 1, Exec(complete, 1, row)).status == Active
            && RowGuard(complete, 1, Exec(activate, 1, row))
            && Exec(complete, 1, Exec(activate, 1, row)).status == Completed
  {
  }

  predicate ChangesNodeRows(u: Update) {
    Scope(u).Some? || u.RestoreStaleInactiveJobs?
  }

  /**
   An upload that finishes while its node counts as offline strands the job: the row becomes inactive
   with no node, and no statement over nodes' rows ever changes it again.
   */
  lemma UploadDuringOutageStrands(j: Job, id: JobId, uri: string, u: Update)
    requires RowOk(j) && j.status == Inactive && ChangesNodeRows(u)
    ensures var stranded := Exec(CompleteUpload(id, uri), id, j);
            && stranded.status == Inactive && stranded.nodeId == None && !RowOk(stranded)
            && Exec(u, id, stranded) == stranded
  {
  }

  /**
   A report for a job whose location was cleared (by FailJob, say) revives it without a location:
   the guard of reports is exactly that the row still has its local copy.
   */
  lemma ReportsRevive(j: Job, r: StatusReport)
    requires RowOk(j) && j.status == Failed && j.fileLocation == None
    ensures Exec(BatchUpdateJobProgress(map[1 := r]), 1, j).status == Active
    ensures !RowOk(Exec(BatchUpdateJobProgress(map[1 := r]), 1, j))
  {
  }

  /**
   A completion whose acknowledgement is lost is delivered again. At once that changes nothing, during the
   upload it takes the claim back, and after the upload it leaves a row waiting for an upload that no node
   can claim; its files are still found.
   */
  lemma LostAcknowledgement(j: Job, id: JobId, r: StatusReport, n: NodeId, m: NodeId, uri: string)
    requires Local(j) && j.nodeId == Some(n) && IsRemoteUri(uri) && FinalSize(j, r).Some?
    ensures var complete := BatchCompleteJobs(map[id := r], true);
            var completed := Exec(complete, id, j);
            var claimed := Exec(ClaimPendingUploads(n), id, completed);
            var uploaded := Exec(CompleteUpload(id, uri), id, claimed);
            var again := Exec(complete, id, uploaded);
            && RowOk(completed) && RowOk(claimed) && RowOk(uploaded)
            && Exec(complete, id, completed) == completed
            && claimed != completed && Exec(complete, id, claimed) == completed
            && !RowOk(again) && again.uploadStatus == UploadPending && !Claimable(again, m)
            && SourceOf(again) == SourceOf(uploaded) == FromStorage(uri)
  {
  }
}
