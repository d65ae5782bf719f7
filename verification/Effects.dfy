/**
 What the calls out of a deletion do to the content on the nodes' disks and in remote storage: the deleted
 job's content goes, everyone else's stays.
 */
module Effects {
  import opened Wrappers
  import opened Reports
  import opened Tables
  import opened Protocol
  import Uploader
  import Links

  // ---------- Calls ----------

  /** What a node is told about a job. */
  datatype JobRef = JobRef(jobId: JobId, engine: string, storageKey: string, engineJobId: string)

  /** A call out of the controller while cleaning up after a job. */
  datatype Effect =
    | DeleteRemote(uri: string)
    | CancelOnNode(node: NodeId, ref: JobRef)
    | RemoveOnNode(node: NodeId, ref: JobRef)

  function RefOf(id: JobId, j: Job): JobRef {
    JobRef(id, j.engine, j.storageKey, if j.engineJobId.Some? then j.engineJobId.value else "")
  }

  /** What is cleaned up after a deleted job: its remote copy, or else its traces on a connected node. */
  function CleanUp(id: JobId, j: Job, clients: set<NodeId>): seq<Effect> {
    if j.fileLocation.Some? && IsRemoteUri(j.fileLocation.value) then [DeleteRemote(j.fileLocation.value)]
    else if j.nodeId.None? || j.nodeId.value !in clients then []
    else
      (if j.engineJobId.Some? && Running(j) then [CancelOnNode(j.nodeId.value, RefOf(id, j))] else [])
      + [RemoveOnNode(j.nodeId.value, RefOf(id, j))]
  }

  // ---------- What they do ----------

  /** The content directories on each node's disk, and the remote URIs that hold content. */
  datatype Store = Store(disks: map<NodeId, set<string>>, objects: set<string>)

  /** One call that goes through. */
  function Do(w: Store, e: Effect, root: string): Store {
    match e
    case DeleteRemote(uri) => w.(objects := w.objects - {uri})
    case CancelOnNode(_, _) => w
    case RemoveOnNode(n, ref) =>
      if n in w.disks then w.(disks := w.disks[n := w.disks[n] - {Uploader.LocalDir(root, ref.engine, ref.storageKey)}]) else w
  }

  function Perform(w: Store, effects: seq<Effect>, root: string): Store {
    if effects == [] then w else Do(Perform(w, effects[..|effects| - 1], root), effects[|effects| - 1], root)
  }

  predicate OnDisk(w: Store, n: NodeId, j: Job, root: string) {
    n in w.disks && Uploader.LocalDir(root, j.engine, j.storageKey) in w.disks[n]
  }

  predicate InRemote(w: Store, j: Job) {
    j.fileLocation.Some? && IsRemoteUri(j.fileLocation.value) && j.fileLocation.value in w.objects
  }

  /** The job's content is on its node or in remote storage. */
  predicate HasContent(w: Store, j: Job, root: string) {
    InRemote(w, j) || (j.nodeId.Some? && OnDisk(w, j.nodeId.value, j, root))
  }

  /** The remote copies of all jobs are those the provider makes for their keys. */
  ghost predicate KeyedCopies(jobs: Jobs, remote: string, base: string) {
    forall id :: id in jobs && jobs[id].fileLocation.Some? && IsRemoteUri(jobs[id].fileLocation.value) ==>
      jobs[id].fileLocation.value == Links.UploadUri(remote, base, jobs[id].storageKey)
  }

  /** Effects that remove exactly what is there of a job: from remote storage, or from its connected node. */
  ghost predicate Removes(effects: seq<Effect>, j: Job, clients: set<NodeId>) {
    forall w: Store, root: string ::
      var after := Perform(w, effects, root);
      && !InRemote(after, j)
      && (!(j.fileLocation.Some? && IsRemoteUri(j.fileLocation.value)) && j.nodeId.Some? && j.nodeId.value in clients ==>
            !OnDisk(after, j.nodeId.value, j, root))
  }

  /** Every other job keeps its content, whatever is stored. */
  ghost predicate SparesOthers(effects: seq<Effect>, jobs: Jobs, deleted: set<JobId>) {
    forall w: Store, root: string, k :: k in jobs && k !in deleted && HasContent(w, jobs[k], root) ==>
      HasContent(Perform(w, effects, root), jobs[k], root)
  }

  /** A call that a deletion of the job may make. */
  predicate IsAbout(e: Effect, id: JobId, j: Job, clients: set<NodeId>) {
    match e
    case DeleteRemote(uri) => j.fileLocation == Some(uri) && IsRemoteUri(uri)
    case CancelOnNode(n, ref) =>
      && j.nodeId == Some(n) && n in clients && Running(j) && j.engineJobId == Some(ref.engineJobId)
      && !(j.fileLocation.Some? && IsRemoteUri(j.fileLocation.value))
      && ref.jobId == id && ref.engine == j.engine && ref.storageKey == j.storageKey
    case RemoveOnNode(n, ref) =>
      && j.nodeId == Some(n) && n in clients && !(j.fileLocation.Some? && IsRemoteUri(j.fileLocation.value))
      && ref.jobId == id && ref.engine == j.engine && ref.storageKey == j.storageKey
      && (j.engineJobId.Some? ==> ref.engineJobId == j.engineJobId.value)
  }

  /** The job is cancelled: it was running under an engine ID on a connected node and is not in remote storage. */
  predicate MustCancel(j: Job, clients: set<NodeId>) {
    && j.nodeId.Some? && j.nodeId.value in clients && j.engineJobId.Some? && (j.status == Queued || j.status == Active)
    && !(j.fileLocation.Some? && IsRemoteUri(j.fileLocation.value))
  }

  predicate Cancels(e: Effect, id: JobId) {
    e.CancelOnNode? && e.ref.jobId == id
  }

  ghost predicate CancelsFirst(effects: seq<Effect>) {
    forall i, k :: 0 <= i < |effects| && 0 <= k < |effects| ==>
      effects[i].RemoveOnNode? && Cancels(effects[k], effects[i].ref.jobId) ==> k < i
  }

  /**
   The calls clean up after the deleted jobs: their content is gone from remote storage and connected nodes,
   each one is cancelled exactly if it was running there, before its removal; no call is about anything else
   or goes to a node that is not connected, and every other job keeps its content.
   */
  ghost predicate CleansUp(effects: seq<Effect>, jobs: Jobs, deleted: set<JobId>, clients: set<NodeId>)
    requires deleted <= jobs.Keys
  {
    && (forall id :: id in deleted ==> Removes(effects, jobs[id], clients))
    && (forall id :: id in deleted ==> ((exists e :: e in effects && Cancels(e, id)) <==> MustCancel(jobs[id], clients)))
    && (forall e :: e in effects ==> exists id :: id in deleted && IsAbout(e, id, jobs[id], clients))
    && CancelsFirst(effects)
    && (forall remote, base :: KeysUnique(jobs) && Uploader.KeysAreKeys(jobs) && KeyedCopies(jobs, remote, base) ==>
          SparesOthers(effects, jobs, deleted))
  }

  // ---------- Single calls ----------

  /** What was gone stays gone. */
  lemma {:induction false} PerformOnlyRemoves(w: Store, effects: seq<Effect>, root: string)
    ensures var t := Perform(w, effects, root);
            && t.objects <= w.objects && t.disks.Keys == w.disks.Keys
            && forall n :: n in t.disks ==> t.disks[n] <= w.disks[n]
    decreases |effects|
  {
    if effects != [] {
      PerformOnlyRemoves(w, effects[..|effects| - 1], root);
    }
  }

  lemma {:induction false} PerformRemoves(w: Store, effects: seq<Effect>, i: nat, root: string)
    requires i < |effects|
    ensures var t := Perform(w, effects, root);
            match effects[i]
            case DeleteRemote(uri) => uri !in t.objects
            case RemoveOnNode(n, ref) => n in t.disks ==> Uploader.LocalDir(root, ref.engine, ref.storageKey) !in t.disks[n]
            case _ => true
    decreases |effects|
  {
    hide Uploader.LocalDir;
    var before := effects[..|effects| - 1];
    if i < |before| {
      assert before[i] == effects[i];
      PerformRemoves(w, before, i, root);
    }
  }

  /** Calls about deleted jobs leave the content of another job alone. */
  lemma {:induction false} PerformSpares(w: Store, effects: seq<Effect>, jobs: Jobs, clients: set<NodeId>, k: JobId,
                                         remote: string, base: string, root: string)
    requires k in jobs && HasContent(w, jobs[k], root)
    requires KeysUnique(jobs) && Uploader.KeysAreKeys(jobs) && KeyedCopies(jobs, remote, base)
    requires forall e :: e in effects ==> exists id :: id in jobs && id != k && IsAbout(e, id, jobs[id], clients)
    ensures HasContent(Perform(w, effects, root), jobs[k], root)
    decreases |effects|
  {
    hide KeysUnique, Uploader.KeysAreKeys, KeyedCopies, HasContent, IsAbout;
    if effects != [] {
      var before, last := effects[..|effects| - 1], effects[|effects| - 1];
      assert last in effects && forall e :: e in before ==> e in effects;
      PerformSpares(w, before, jobs, clients, k, remote, base, root);
      var id :| id in jobs && id != k && IsAbout(last, id, jobs[id], clients);
      OneSpares(Perform(w, before, root), last, jobs, clients, id, k, remote, base, root);
    }
  }

  lemma OneSpares(w: Store, e: Effect, jobs: Jobs, clients: set<NodeId>, id: JobId, k: JobId, remote: string,
                  base: string, root: string)
    requires k in jobs && id in jobs && id != k && IsAbout(e, id, jobs[id], clients) && HasContent(w, jobs[k], root)
    requires KeysUnique(jobs) && Uploader.KeysAreKeys(jobs) && KeyedCopies(jobs, remote, base)
    ensures HasContent(Do(w, e, root), jobs[k], root)
  {
    assert jobs[id].storageKey != jobs[k].storageKey;
    assert Uploader.LocalDir(root, jobs[id].engine, jobs[id].storageKey) != Uploader.LocalDir(root, jobs[k].engine, jobs[k].storageKey) by {
      Uploader.OwnDirectory(root, jobs[id].engine, jobs[id].storageKey, jobs[k].engine, jobs[k].storageKey);
    }
    Links.UrisDiffer(remote, base, jobs[id].storageKey, jobs[k].storageKey);
    hide Links.UploadUri, Uploader.LocalDir;
  }

  // ---------- Cleaning up ----------

  lemma CleanUpIsAbout(id: JobId, j: Job, clients: set<NodeId>)
    ensures forall e :: e in CleanUp(id, j, clients) ==> IsAbout(e, id, j, clients)
    ensures (exists e :: e in CleanUp(id, j, clients) && Cancels(e, id)) <==> MustCancel(j, clients)
    ensures CancelsFirst(CleanUp(id, j, clients))
  {
    var effects := CleanUp(id, j, clients);
    if MustCancel(j, clients) {
      assert effects[0] in effects && Cancels(effects[0], id);
    }
  }

  /** Calls that include a job's clean-up remove its content. */
  lemma CleanUpRemoves(effects: seq<Effect>, id: JobId, j: Job, clients: set<NodeId>)
    requires forall e :: e in CleanUp(id, j, clients) ==> e in effects
    ensures Removes(effects, j, clients)
  {
    hide Uploader.LocalDir;
    var own := CleanUp(id, j, clients);
    if |own| > 0 {
      assert own[|own| - 1] in own;
      var i :| 0 <= i < |effects| && effects[i] == own[|own| - 1];
      forall w: Store, root: string
        ensures var after := Perform(w, effects, root);
                && !InRemote(after, j)
                && (!(j.fileLocation.Some? && IsRemoteUri(j.fileLocation.value)) && j.nodeId.Some? && j.nodeId.value in clients ==>
                      !OnDisk(after, j.nodeId.value, j, root))
      {
        PerformRemoves(w, effects, i, root);
      }
    }
  }

  lemma AllCleanedUp(effects: seq<Effect>, jobs: Jobs, deleted: set<JobId>, clients: set<NodeId>)
    requires deleted <= jobs.Keys && CancelsFirst(effects)
    requires forall e :: e in effects <==> exists id :: id in deleted && e in CleanUp(id, jobs[id], clients)
    ensures CleansUp(effects, jobs, deleted, clients)
  {
    hide CleanUp, Removes, IsAbout, MustCancel, CancelsFirst, KeysUnique, Uploader.KeysAreKeys, KeyedCopies, HasContent;
    forall id | id in deleted
      ensures Removes(effects, jobs[id], clients)
      ensures (exists e :: e in effects && Cancels(e, id)) <==> MustCancel(jobs[id], clients)
    {
      CleanUpRemoves(effects, id, jobs[id], clients);
      CleanUpIsAbout(id, jobs[id], clients);
      forall e | e in effects && Cancels(e, id) ensures e in CleanUp(id, jobs[id], clients) {
        var k :| k in deleted && e in CleanUp(k, jobs[k], clients);
        CallNamesJob(k, jobs[k], clients, e);
      }
    }
    forall e | e in effects ensures exists id :: id in deleted && IsAbout(e, id, jobs[id], clients) {
      var id :| id in deleted && e in CleanUp(id, jobs[id], clients);
      CleanUpIsAbout(id, jobs[id], clients);
    }
    forall remote, base | KeysUnique(jobs) && Uploader.KeysAreKeys(jobs) && KeyedCopies(jobs, remote, base)
      ensures SparesOthers(effects, jobs, deleted)
    {
      forall w: Store, root: string, k | k in jobs && k !in deleted && HasContent(w, jobs[k], root)
        ensures HasContent(Perform(w, effects, root), jobs[k], root)
      {
        PerformSpares(w, effects, jobs, clients, k, remote, base, root);
      }
    }
  }

  lemma OneCleanedUp(id: JobId, jobs: Jobs, clients: set<NodeId>)
    requires id in jobs
    ensures CleansUp(CleanUp(id, jobs[id], clients), jobs, {id}, clients)
  {
    hide CleanUp, CleansUp, CancelsFirst;
    CleanUpIsAbout(id, jobs[id], clients);
    AllCleanedUp(CleanUp(id, jobs[id], clients), jobs, {id}, clients);
  }

  lemma CallNamesJob(id: JobId, j: Job, clients: set<NodeId>, e: Effect)
    requires e in CleanUp(id, j, clients)
    ensures !e.DeleteRemote? ==> e.ref.jobId == id
  {
  }

  lemma OneMoreCleanUp(effects: seq<Effect>, id: JobId, j: Job, clients: set<NodeId>)
    requires CancelsFirst(effects)
    requires forall e :: e in effects && !e.DeleteRemote? ==> e.ref.jobId != id
    ensures CancelsFirst(effects + CleanUp(id, j, clients))
  {
    var own, all := CleanUp(id, j, clients), effects + CleanUp(id, j, clients);
    forall i | 0 <= i < |own| ensures !own[i].DeleteRemote? ==> own[i].ref.jobId == id {
    }
    forall i, k | 0 <= i < |all| && 0 <= k < |all| && all[i].RemoveOnNode? && Cancels(all[k], all[i].ref.jobId)
      ensures k < i
    {
      if i < |effects| {
        assert all[i] in effects;
      }
      if k < |effects| {
        assert all[k] in effects;
      }
    }
  }
}
