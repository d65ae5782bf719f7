/**
 The database: rows, the statements of internal/database/queries (each one atomic), and the constraints
 of internal/database/migrations/001_init.up.sql. A statement that would violate a constraint fails and
 changes nothing. Timestamps are not recorded, so conditions on row age are parameters.
 */
module Tables {
  import opened Wrappers
  import opened Reports

  type NodeId = string
  type UserId = nat
  type DownloadId = nat
  type LinkId = nat

  datatype Status = Queued | Active | Completed | Failed | Inactive

  datatype UploadStatus = NotUploaded | UploadPending | Uploading | Uploaded | UploadFailed

  datatype Job = Job(
    nodeId: Option<NodeId>, engine: string, engineJobId: Option<string>, url: string, storageKey: string,
    status: Status, name: string, size: Option<int>, fileLocation: Option<string>,
    uploadStatus: UploadStatus, errorMessage: Option<string>,
    progress: real, speed: int, downloadedSize: int)

  datatype Node = Node(isController: bool, isOnline: bool)

  datatype Download = Download(userId: UserId, jobId: JobId)

  datatype Link = Link(userId: UserId, downloadId: DownloadId, storageUri: string, token: string)

  type Jobs = map<JobId, Job>
  type Downloads = map<DownloadId, Download>
  type Links = map<LinkId, Link>

  datatype Db = Db(
    users: set<UserId>, nodes: map<NodeId, Node>, jobs: Jobs, downloads: Downloads, links: Links)

  const EMPTY := Db({}, map[], map[], map[], map[])

  // ---------- UPDATE statements on jobs ----------

  /** The reports a batch statement uses: one per job; when a job is reported twice, SQL picks either. */
  type Chosen = map<JobId, StatusReport>

  datatype Update =
    | UpdateJobStatus(id: JobId, status: Status, engineJobId: string, error: string, fileLocation: string)
    | FailJob(id: JobId, error: string)
    | ResetJob(id: JobId, node: NodeId, url: string)
    | BatchUpdateJobProgress(chosen: Chosen)
    | BatchCompleteJobs(chosen: Chosen, uploadPending: bool)
    | BatchFailJobs(chosen: Chosen)
    | MarkNodeActiveJobsFailed(node: NodeId)
    | FailNodeJobsForDeletion(node: NodeId)
    | MarkNodeCompletedJobsInactive(node: NodeId)
    | RestoreNodeInactiveJobs(node: NodeId)
    | RestoreNodeInactiveJobsWithKeys(node: NodeId, keys: set<string>)
    | FailNodeInactiveJobsMissingKeys(node: NodeId)
    | RestoreStaleInactiveJobs(online: set<NodeId>, stale: set<JobId>)
    | ClaimPendingUploads(node: NodeId)
    | CompleteUpload(id: JobId, remoteUri: string)
    | SetUploadStatus(id: JobId, uploadStatus: UploadStatus)
    | ResetStuckUploads(node: NodeId)

  predicate IsLocalUri(uri: string) {
    "file://" <= uri
  }

  predicate IsRemoteUri(uri: string) {
    "rclone://" <= uri
  }

  predicate Assigned(j: Job, n: NodeId) {
    j.nodeId == Some(n)
  }

  predicate Running(j: Job) {
    j.status == Queued || j.status == Active
  }

  predicate Claimable(j: Job, n: NodeId) {
    Assigned(j, n) && j.status == Completed && (j.uploadStatus == UploadPending || j.uploadStatus == UploadFailed)
  }

  /** CASE WHEN text != '' THEN text ELSE old END */
  function OrOld(text: string, before: Option<string>): Option<string> {
    if text != "" then Some(text) else before
  }

  /** What BatchUpdateJobProgress makes of a row. */
  function Progressed(j: Job, r: StatusReport): Job {
    j.(status := Active, progress := r.progress, speed := r.speed, downloadedSize := r.downloadedSize,
       name := if r.name != "" then r.name else j.name,
       size := if r.totalSize > 0 then Some(r.totalSize) else j.size,
       engineJobId := OrOld(r.engineJobId, j.engineJobId))
  }

  /** COALESCE(NULLIF(size, 0), jobs.size) */
  function FinalSize(j: Job, r: StatusReport): Option<int> {
    if r.totalSize != 0 then Some(r.totalSize) else j.size
  }

  /** What BatchCompleteJobs makes of a row whose final size is known. */
  function Finished(j: Job, r: StatusReport, uploadPending: bool): Job {
    var size := FinalSize(j, r);
    j.(status := Completed, progress := 100.0, speed := 0,
       downloadedSize := if size.Some? then size.value else j.downloadedSize,
       size := size,
       engineJobId := OrOld(r.engineJobId, j.engineJobId),
       name := if r.name != "" then r.name else j.name,
       uploadStatus := if uploadPending then UploadPending else j.uploadStatus)
  }

  /** What BatchFailJobs makes of a row. */
  function FailedBy(j: Job, r: StatusReport): Job {
    j.(status := Failed, errorMessage := Some(r.error), fileLocation := None)
  }

  /** What a statement makes of one row. */
  function Exec(u: Update, id: JobId, j: Job): Job {
    match u
    case UpdateJobStatus(target, status, engineJobId, error, fileLocation) =>
      if id != target then j else
        j.(status := status, engineJobId := OrOld(engineJobId, j.engineJobId),
           errorMessage := OrOld(error, j.errorMessage), fileLocation := OrOld(fileLocation, j.fileLocation))
    case FailJob(target, error) =>
      if id != target then j else
        j.(status := Failed, errorMessage := OrOld(error, None), fileLocation := None)
    case ResetJob(target, node, url) =>
      if id != target || !(j.status == Failed || j.status == Inactive) then j else
        j.(status := Queued, nodeId := Some(node), url := url, engineJobId := None, errorMessage := None,
           fileLocation := None, progress := 0.0, speed := 0, downloadedSize := 0)
    case BatchUpdateJobProgress(chosen) => if id in chosen then Progressed(j, chosen[id]) else j
    case BatchCompleteJobs(chosen, uploadPending) =>
      if id in chosen then Finished(j, chosen[id], uploadPending) else j
    case BatchFailJobs(chosen) => if id in chosen then FailedBy(j, chosen[id]) else j
    case MarkNodeActiveJobsFailed(n) =>
      if Assigned(j, n) && Running(j) then j.(status := Failed, errorMessage := Some("node went offline")) else j
    case FailNodeJobsForDeletion(n) =>
      if Assigned(j, n)
      then j.(status := Failed, errorMessage := Some("node deleted by admin"), nodeId := None) else j
    case MarkNodeCompletedJobsInactive(n) =>
      if Assigned(j, n) && j.status == Completed && j.fileLocation.Some? && IsLocalUri(j.fileLocation.value)
      then j.(status := Inactive) else j
    case RestoreNodeInactiveJobs(n) =>
      if Assigned(j, n) && j.status == Inactive then j.(status := Completed) else j
    case RestoreNodeInactiveJobsWithKeys(n, keys) =>
      if Assigned(j, n) && j.status == Inactive && j.storageKey in keys then j.(status := Completed) else j
    case FailNodeInactiveJobsMissingKeys(n) =>
      if Assigned(j, n) && j.status == Inactive
      then j.(status := Failed, errorMessage := Some("files not found on node after restart"), fileLocation := None)
      else j
    case RestoreStaleInactiveJobs(online, stale) =>
      if j.status == Inactive && j.nodeId.Some? && j.nodeId.value in online && id in stale
      then j.(status := Completed) else j
    case ClaimPendingUploads(n) => if Claimable(j, n) then j.(uploadStatus := Uploading) else j
    case CompleteUpload(target, uri) =>
      if id != target then j else j.(fileLocation := Some(uri), uploadStatus := Uploaded, nodeId := None)
    case SetUploadStatus(target, us) => if id != target then j else j.(uploadStatus := us)
    case ResetStuckUploads(n) =>
      if Assigned(j, n) && j.uploadStatus == Uploading then j.(uploadStatus := UploadPending) else j
  }

  /** Some completed row would get a NULL downloaded_size. */
  predicate SizeUnknown(jobs: Jobs, chosen: Chosen) {
    exists id :: id in chosen && id in jobs && FinalSize(jobs[id], chosen[id]).None?
  }

  /** A whole statement; BatchCompleteJobs fails as a whole when one of its sizes is unknown. */
  function Apply(u: Update, jobs: Jobs): (r: Jobs)
    ensures r.Keys == jobs.Keys
  {
    if u.BatchCompleteJobs? && SizeUnknown(jobs, u.chosen) then jobs
    else map id | id in jobs :: Exec(u, id, jobs[id])
  }

  // ---------- LIKE and the other statements ----------

  /** SQL's LIKE with its wildcards '%' and '_' and the escape '\'. */
  predicate Like(s: string, pattern: string)
    decreases |pattern|, |s|
  {
    if pattern == "" then s == ""
    else if pattern[0] == '%' then Like(s, pattern[1..]) || (s != "" && Like(s[1..], pattern))
    else if pattern[0] == '_' then s != "" && Like(s[1..], pattern[1..])
    else if pattern[0] == '\\' && |pattern| > 1 then s != "" && s[0] == pattern[1] && Like(s[1..], pattern[2..])
    else s != "" && s[0] == pattern[0] && Like(s[1..], pattern[1..])
  }

  /** UpdateDownloadLinksStorageURI on one link of the job. */
  function Rewritten(uri: string, oldPrefix: string, newPrefix: string): string {
    if Like(uri, oldPrefix + "%") then newPrefix + (if |oldPrefix| <= |uri| then uri[|oldPrefix|..] else "")
    else uri
  }

  datatype NewJob = NewJob(node: NodeId, engine: string, url: string, storageKey: string, name: string)

  function FreshRow(n: NewJob): Job {
    Job(Some(n.node), n.engine, None, n.url, n.storageKey, Queued, n.name, None, None, NotUploaded, None, 0.0, 0, 0)
  }

  datatype Action =
    | InsertUser(user: UserId)
    | UpsertNode(node: NodeId, isController: bool)
    | SetNodeOnline(node: NodeId, online: bool)
    | DeleteNode(node: NodeId)
    | CreateJob(id: JobId, row: NewJob, download: DownloadId, user: UserId)  // with its download, one transaction
    | CreateDownload(download: DownloadId, user: UserId, job: JobId)
    | DeleteDownload(download: DownloadId)
    | DeleteJob(id: JobId)
    | DeleteUser(user: UserId)
    | CreateLink(link: LinkId, entry: Link)
    | RewriteLinks(job: JobId, oldPrefix: string, newPrefix: string)
    | UpdateJobs(update: Update)

  predicate KeyTaken(jobs: Jobs, key: string) {
    exists id :: id in jobs && jobs[id].storageKey == key
  }

  predicate HasDownload(downloads: Downloads, user: UserId, job: JobId) {
    Download(user, job) in downloads.Values
  }

  /** No constraint is violated. */
  predicate Admissible(s: Db, a: Action) {
    match a
    case CreateJob(id, row, download, user) =>
      id !in s.jobs && !KeyTaken(s.jobs, row.storageKey) && row.node in s.nodes
      && download !in s.downloads && user in s.users
    case CreateDownload(download, user, job) =>
      download !in s.downloads && user in s.users && job in s.jobs && !HasDownload(s.downloads, user, job)
    case CreateLink(link, entry) => link !in s.links && entry.userId in s.users && entry.downloadId in s.downloads
    case UpdateJobs(ResetJob(_, node, _)) => node in s.nodes
    case _ => true
  }

  /** Removes downloads and, by cascade, their links. */
  function DropDownloads(s: Db, gone: set<DownloadId>): Db {
    s.(downloads := s.downloads - gone,
       links := map l | l in s.links && s.links[l].downloadId !in gone :: s.links[l])
  }

  function DownloadsOf(s: Db, id: JobId): set<DownloadId> {
    set d | d in s.downloads && s.downloads[d].jobId == id
  }

  function DownloadsBy(s: Db, user: UserId): set<DownloadId> {
    set d | d in s.downloads && s.downloads[d].userId == user
  }

  function Next(s: Db, a: Action): Db {
    if !Admissible(s, a) then s else
    match a
    case InsertUser(u) => s.(users := s.users + {u})
    case UpsertNode(n, isController) =>
      s.(nodes := s.nodes[n := Node(if n in s.nodes then s.nodes[n].isController else isController, true)])
    case SetNodeOnline(n, online) =>
      if n in s.nodes then s.(nodes := s.nodes[n := s.nodes[n].(isOnline := online)]) else s
    case DeleteNode(n) =>
      s.(nodes := s.nodes - {n},
         jobs := map id | id in s.jobs :: if Assigned(s.jobs[id], n) then s.jobs[id].(nodeId := None) else s.jobs[id])
    case CreateJob(id, row, download, user) =>
      s.(jobs := s.jobs[id := FreshRow(row)], downloads := s.downloads[download := Download(user, id)])
    case CreateDownload(download, user, job) => s.(downloads := s.downloads[download := Download(user, job)])
    case DeleteDownload(download) => DropDownloads(s, {download})
    case DeleteJob(id) => DropDownloads(s, DownloadsOf(s, id)).(jobs := s.jobs - {id})
    case DeleteUser(u) =>
      var t := DropDownloads(s, DownloadsBy(s, u));
      t.(users := s.users - {u}, links := map l | l in t.links && t.links[l].userId != u :: t.links[l])
    case CreateLink(link, entry) => s.(links := s.links[link := entry])
    case RewriteLinks(job, oldPrefix, newPrefix) =>
      s.(links := map l | l in s.links ::
           var k := s.links[l];
           if k.downloadId in s.downloads && s.downloads[k.downloadId].jobId == job
           then k.(storageUri := Rewritten(k.storageUri, oldPrefix, newPrefix)) else k)
    case UpdateJobs(u) => s.(jobs := Apply(u, s.jobs))
  }

  function Run(s: Db, actions: seq<Action>): Db
    decreases |actions|
  {
    if actions == [] then s else Run(Next(s, actions[0]), actions[1..])
  }

  lemma {:induction false} RunConcat(s: Db, xs: seq<Action>, ys: seq<Action>)
    ensures Run(s, xs + ys) == Run(Run(s, xs), ys)
    decreases |xs|
  {
    if xs == [] {
      assert xs + ys == ys;
    } else {
      assert (xs + ys)[1..] == xs[1..] + ys;
      RunConcat(Next(s, xs[0]), xs[1..], ys);
    }
  }

  lemma NextUpdate(s: Db, u: Update)
    requires !u.ResetJob?
    ensures Next(s, UpdateJobs(u)) == s.(jobs := Apply(u, s.jobs))
  {
    hide Apply;
  }

  lemma RunNothing(s: Db)
    ensures Run(s, []) == s
  {
  }

  lemma RunOne(s: Db, a: Action)
    ensures Run(s, [a]) == Next(s, a)
  {
    assert [a][1..] == [];
  }

  lemma RunTwo(s: Db, a: Action, b: Action)
    ensures Run(s, [a, b]) == Next(Next(s, a), b)
  {
    assert [a, b][1..] == [b];
    RunOne(Next(s, a), b);
  }

  lemma RunThree(s: Db, a: Action, b: Action, c: Action)
    ensures Run(s, [a, b, c]) == Next(Next(Next(s, a), b), c)
  {
    assert [a, b, c][1..] == [b, c];
    RunTwo(Next(s, a), b, c);
  }

  lemma RunThen(s: Db, xs: seq<Action>, a: Action)
    ensures Run(s, xs + [a]) == Next(Run(s, xs), a)
  {
    RunConcat(s, xs, [a]);
    RunOne(Run(s, xs), a);
  }
}
