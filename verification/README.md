# opendebrid: verified model

opendebrid is a download manager. A controller keeps users, jobs, downloads and links in a database, worker nodes run
download engines, and finished jobs can be moved to remote storage. These files model its logic in Dafny and prove what
it promises; `dafny verify dfyconfig.toml` checks all of them.

The model has three parts.

**The job protocol.** `Tables` has the rows, every SQL statement as one atomic step, and the constraints of the schema.
`Protocol` says which rows are consistent and gives, for each statement, the exact condition under which it keeps them
so. `Events` composes the statements into the controller's entry points and proves safety of every run of them;
`Histories`, `Outcomes`, `Push` and `DownloadSteps` prove what holds across steps (claims of uploads, what an entry
point leaves, batches against single pushes, `Add` and `Delete`), and `Counting` counts dispatches over runs,
`OutcomesOfAdd` says what `Add` leaves and answers, and `Effects` what the calls of a deletion do to stored content. `Database`,
`Controller`, `Service`, `Startup` and `Uploader` are the imperative code: methods over a database object, node disks and
a storage provider, each tied to the statements it issues. `Cleanup` is about the delayed removal of directories.

**The status pipeline.** `StatusLoop` (tracker and poll), `Aria2` (the engine's side of a poll), `Sink` (the bounded
retry buffer) and `Pipeline` (all of it as one state machine, where every dispatch is accounted for).

**Texts.** `Bencode`, `Torrent` and `Magnet` follow a torrent to its storage key, `Links` a file's link to remote
storage; `Ranges` and `Uuid` are the two small formats. `Scheduler` is node selection. `Wrappers`, `Strings`, `Numbers`,
`Hex` and `Reports` are shared.

## What the code does not keep

The proofs give exact conditions where a plausible property fails. In each case the code is modelled as it is.

- The report statements, UpdateJobStatus and CompleteUpload have no status guard. `Protocol.RowGuard` is exactly what
  their callers must keep; `Events.Trusted` is what remains to be assumed about workers, and by `Events.FittingIsPlayed`
  it holds when they report only on active jobs and claimed uploads. `Events.QueuedReportBreaks`, `Histories.ReportsRevive`,
  `UploadDuringOutageStrands`, `EarlyCompletionIsOverwritten` and `LostAcknowledgement` show what happens otherwise.
- A completion of unknown size makes the whole batch of completions fail (`Push.UnknownSizeBlocks`); a batch equals single
  pushes exactly under the condition of `Push.BatchIsEachExactly`.
- A node's outage followed by a blind restore is a round trip exactly when none of its jobs was inactive before
  (`Histories.OutageRoundTrip`).
- A torrent with several `info` keys has two identities: the URL submission hashes the first, the upload the last
  (`Torrent.UploadAgreesWithUrl`, `Torrent.TwoInfosDisagree`).
- String lengths in bencoded text count modulo 2^64: the reader agrees with the grammar of mathematical lengths exactly
  while no length reaches 2^63 (`Bencode.SkipExactWord`, `Bencode.LargeLengthPasses`), and some larger ones stop it with a
  panic (`Bencode.PanicExactly`, `Bencode.LargestLengthPanics`).
- A poll acts on job IDs: a job dispatched anew between listing and polling can fall out of the tracker, and only such a
  job can (`Pipeline.PollIsExactBetween`, `Pipeline.RedispatchLosesTracking`).
- A magnet's job is reported as ended before its content exactly when the daemon does not show the content
  (`Aria2.PrematureEndExactly`). A status query cleans up as it goes: an answer is that of the daemon as it was at first
  exactly under the condition of `Aria2.AnswerIsOfFirstSnapshotExactly`. It fails for a finished download asked about
  twice (`Aria2.AskedTwiceIsLost`), which is an input of the query; nothing here shows that aria2 gives two jobs one ID.
  The next poll gives the same answer again exactly under the condition of `Aria2.PollAgain` (`Aria2.OrphanIsLost`).
- A worker's uploader deletes the files even if its report was lost (`Uploader.Host.UploadFromWorker`); the
  controller's does not (`Uploader.Host.UploadJob`).
- Orphaned directories are removed in the background with keys read before: `Cleanup.LateCleanupExactly` says for which
  runs that is harmless, and `Cleanup.AddLosesDirectory` is a run that loses the directory of an active job.
- Links follow their files to remote storage exactly when the engine keeps its files in the directory of its own name,
  which is the default (`Links.LinksFollowFiles`).
- Round robin is fair over the wrap of its counter exactly when the number of candidates divides 2^64
  (`Scheduler.FairAcrossWrapExactly`).
- A suffix range on an empty file is accepted (`Ranges.InBoundsExactly`, `Ranges.EmptyFile`). Signs pass although section
  14.1.2 of RFC 9110 allows digits only (`Ranges.ConformsExactly`, `Ranges.SignsPass`), and numbers beyond 64 bits are
  refused (`Ranges.AcceptedExactly`, `Ranges.LargePositionsFail`).

## Model

| member | source | states |
|---|---|---|
| Protocol.RowExact | internal/database/queries/jobs.sql:12-178 | a statement leaves a consistent row consistent if and only if its guard holds for that row |
| Protocol.ExecKeeps | internal/database/queries/jobs.sql:12-178 | no statement changes a job's storage key or engine, and only ResetJob assigns a node |
| Protocol.DropExact | internal/database/migrations/001_init.up.sql:78-84 | removing downloads leaves every job with a download if and only if each job of a removed download has another one |
| Protocol.StepExact | internal/database/queries/jobs.sql:1-178 | any statement keeps the invariant (rows, UNIQUE keys, foreign keys, a download for every job) if and only if its guard holds |
| Protocol.RunKeepsInv | internal/database/queries/jobs.sql:1-178 | every run of guarded statements keeps the invariant |
| Events.PushAllowed | internal/controller/grpc/handlers.go:163-300 | reports on jobs whose row still has its local copy make all three batch statements meet their guards |
| Events.PlanAllowed | internal/controller/grpc/handlers.go:23-388 | every entry point issues only statements whose guards hold, assuming only what workers report |
| Events.PlayKeepsInv | internal/controller/server.go:51-278 | every run of entry points keeps the invariant |
| Events.RunsAreSafe | internal/core/service/download.go:295-322 | in every run from the empty database: unique storage keys, one download per user and job, every job has a download, a job that is not failed is never listed as "no node assigned", a completed job is local with a node or remote without one |
| Events.FittingIsPlayed | internal/controller/grpc/handlers.go:163-366 | in every run in which workers report only on active jobs, and on uploads only of completed jobs that are uploading, the assumption on reports and the invariant hold throughout |
| Events.RunningReportExactly | internal/database/queries/jobs.sql:56-75 | a report on a running job keeps its row consistent if and only if the row has its location, which every active one has |
| Events.QueuedReportBreaks | internal/database/queries/jobs.sql:56-75 | a report on a newly created job makes its row active without location |
| Outcomes.AfterReap | internal/controller/server.go:386-402 | after a reaper round each row is known: stale nodes' running jobs failed and local content set aside, only old inactive jobs of online nodes restored, all else unchanged |
| Outcomes.AfterRegister | internal/controller/grpc/handlers.go:23-81 | registration leaves the node no running job and no claimed upload, makes interrupted uploads claimable, and changes no other row |
| Outcomes.AfterRemoveNode | internal/controller/api/handlers/nodes.go:89-104 | deleting an offline node fails and unassigns its jobs and changes no other row, download or link |
| Outcomes.AfterHeartbeat | internal/controller/grpc/handlers.go:93-132 | a ping of an unconnected known node completes exactly its inactive jobs and puts it online; of a connected one only the latter; of an unknown one nothing |
| Outcomes.AfterDeregister | internal/controller/grpc/handlers.go:84-89 | a node that leaves is offline, its running jobs have failed and its local content is set aside; other rows stay |
| Outcomes.AfterStartController | internal/controller/server.go:132-170 | the controller's node is online and its rows are checked against the disk, stale nodes and their rows are offline, all else stays |
| Outcomes.AfterUpsert | internal/database/queries/nodes.sql:1-12 | registration puts a node online and never changes whether it is the controller |
| Outcomes.AfterClaim | internal/database/queries/jobs.sql:146-152 | claiming marks exactly the completed jobs of the node whose upload waits or has failed |
| Outcomes.AfterUpload | internal/controller/grpc/handlers.go:329-352 | a finished upload moves exactly its job to the remote copy and off its node; a failed one marks exactly its job |
| Outcomes.AfterUploadLinks | internal/controller/grpc/handlers.go:354-362 | an upload rewrites exactly the links of its own job, by the engine/key prefix |
| Outcomes.AfterFailStale | internal/core/service/download.go:671-685 | exactly the listed jobs fail, without location and with the stale message |
| Outcomes.AfterSignUpAndLink | internal/database/queries/download_links.sql:1-4 | a new link of a user to a download is there afterwards, as a new user is, and nothing else changes |
| Histories.FilesAreFound | internal/core/service/download.go:301-325 | in every guarded run a completed job is listed from its own remote location exactly when its upload is done, otherwise from its own node |
| Histories.ClaimsAlternate | internal/database/queries/jobs.sql:146-178 | in any run at all, between two claims of one upload some step really made it claimable again, and it is a failed report, a stuck-upload reset or a new completion |
| Histories.BatchesAreDisjoint | internal/database/queries/jobs.sql:146-152 | claimed batches share no job unless an upload was given back between them |
| Histories.RunExtends | internal/database/queries/jobs.sql:1-178 | without deletions, jobs keep their keys and downloads stay as they are |
| Histories.OutageRoundTrip | internal/database/nodeoffline.go:22-30 | offline then blind restore changes only running jobs (to failed), if and only if the node had no inactive job before |
| Histories.ScopedCommute | internal/database/queries/jobs.sql:111-178 | statements scoped to different nodes commute |
| Histories.EarlyCompletionIsOverwritten | internal/core/service/download.go:242-268 | a completion between dispatch and Add's last update is lost; after it, it is kept |
| Histories.UploadDuringOutageStrands | internal/database/queries/jobs.sql:154-161 | an upload finished while its node is offline leaves an inactive job without node that no node statement changes |
| Histories.ReportsRevive | internal/database/queries/jobs.sql:56-75 | a progress report on a failed job without location makes it active without location |
| Histories.LostAcknowledgement | internal/worker/server.go:503-519 | delivering a completion again changes nothing at once, takes the claim back during the upload, and after it leaves a row that no node can claim |
| Push.BatchIsEach | internal/controller/grpc/handlers.go:163-300 | with one report per job and known sizes, a batch push gives the table of single pushes |
| Push.OrderIsIrrelevant | internal/controller/grpc/handlers.go:163-300 | single pushes of distinct jobs give the same table in any order |
| Push.BatchIsEachExactly | internal/database/queries/jobs.sql:77-96 | the batch equals single pushes if and only if all its completions have a known size, or each of known size only repeats the table |
| Push.UnknownSizeBlocks | internal/database/migrations/001_init.up.sql:60 | one completion of unknown size undoes all completions of the batch |
| Push.PushOneIsPush | internal/controller/grpc/handlers.go:163-196 | the single push used for comparison is the handler's push of one report |
| Push.PushShows | internal/database/queries/jobs.sql:56-109 | after a push the row of a once-reported job shows that report: its figures, name, final size or error, and nothing else has changed |
| Push.PushLeavesOthers | internal/database/queries/jobs.sql:56-109 | jobs without a report keep their rows |
| Push.PushKeepsKnown | internal/database/queries/jobs.sql:62-85 | a known name, positive size or engine ID is never replaced by an empty one when sizes are not negative |
| DownloadSteps.AddAllowed | internal/core/service/download.go:117-278 | all statements of Add meet their guards, whatever scheduler and node answer |
| DownloadSteps.AddKeepsInv | internal/core/service/download.go:117-278 | Add keeps the invariant in each of its outcomes |
| DownloadSteps.DispatchedOnce | internal/core/service/download.go:134-268 | a job is dispatched only if just created or reset, and each creation or reset for an existing user is dispatched |
| Counting.DispatchesAreCounted | internal/core/service/download.go:134-268 | over any run of entry points, creations plus resets of a key's job equal its dispatches plus the Adds that reset it and could not link it |
| Counting.DispatchesEqualPreparations | internal/core/service/download.go:134-268 | for Adds of existing users, dispatches of a key equal creations plus resets |
| DownloadSteps.AnswerIsMine | internal/core/service/download.go:269-277 | the answer names a download of that user of the job with that storage key |
| OutcomesOfAdd.AcceptedRow | internal/core/service/download.go:242-268 | after an accepted dispatch the row is active on the selected node with the node's engine ID and location and the request's URL, engine and name; other rows stay |
| OutcomesOfAdd.RefusedRow | internal/core/service/download.go:244-263 | after a refused dispatch the row has failed with the node's message or the default one |
| OutcomesOfAdd.AnswerIsTrue | internal/core/service/download.go:134-172 | the answer's status and node are those of the row afterwards, and it is a cache hit if and only if the key's job was completed before |
| OutcomesOfAdd.RefusedBefore | internal/core/service/download.go:176-190 | each earlier error comes exactly under its own circumstances and changes no row |
| OutcomesOfAdd.AddSucceeds | internal/core/service/download.go:117-278 | for an existing user Add succeeds whenever the key's job is in use or a connected known node accepts the job |
| DownloadSteps.AddIsIdempotent | internal/core/service/download.go:134-215 | repeated Adds of one content by one user return the same download through any steps that delete nothing |
| DownloadSteps.DeleteCollects | internal/core/service/download.go:467-514 | the statement chosen by the download count removes the download, and the job exactly if that was its last |
| DownloadSteps.CollectedTwice | internal/core/service/download.go:564-579 | removing downloads in two rounds or at once leaves the same database |
| DownloadSteps.CountsStayRight | internal/core/service/download.go:557-579 | a count read up front still chooses the right statement after other downloads of the user are gone |
| DownloadSteps.DeleteActionsCollect | internal/core/service/download.go:564-579 | after any number of rounds the database is that of the downloads deleted so far, and the invariant holds |
| DownloadSteps.DeleteUserCollects | internal/core/service/download.go:557-582 | DeleteUser removes the user's downloads and exactly the jobs that no one else has |
| Database.Database.Execute | internal/database/migrations/001_init.up.sql:24-102 | running a statement on the tables gives the next database, or fails and changes nothing when a constraint refuses it |
| Database.Database.Cascade | internal/database/migrations/001_init.up.sql:78-97 | removed downloads take their links with them |
| Database.Database.UpdateRows | internal/database/queries/jobs.sql:111-178 | returns exactly the rows that changed |
| Database.Database.BatchUpdateJobProgress | internal/database/queries/jobs.sql:56-75 | parallel columns update each named job by one of its rows |
| Database.Database.BatchCompleteJobs | internal/database/queries/jobs.sql:77-96 | parallel columns complete each named job by one of its rows, or nothing changes |
| Database.Database.BatchFailJobs | internal/database/queries/jobs.sql:98-109 | parallel columns fail each named job by one of its rows and the jobs hit are returned |
| Database.Join | internal/database/queries/jobs.sql:65-75 | one unnested row is used for each named job |
| Controller.ChosenReports | internal/controller/grpc/handlers.go:199-229 | rows chosen from the columns correspond to a choice among the reports the columns were filled from |
| Controller.TerminalParts | internal/controller/grpc/handlers.go:163-196 | splitting off terminal reports first loses no completion and no failure |
| Controller.Server.Register | internal/controller/grpc/handlers.go:23-81 | fails the node's running jobs, releases its stuck uploads, and connects it |
| Controller.Server.Deregister | internal/controller/grpc/handlers.go:84-89 | takes the node and its jobs offline and disconnects it |
| Controller.Server.Heartbeat | internal/controller/grpc/handlers.go:93-132 | restores inactive jobs only for a known node that was not connected |
| Controller.Server.BatchUpdateProgress | internal/controller/grpc/handlers.go:199-229 | the parallel arrays carry the reports to the progress statement |
| Controller.Server.BatchComplete | internal/controller/grpc/handlers.go:243-265 | the parallel arrays carry the reports to the completion statement |
| Controller.Server.BatchFail | internal/controller/grpc/handlers.go:267-281 | the parallel arrays carry the reports to the failure statement |
| Controller.Server.RemovalsFor | internal/controller/grpc/handlers.go:283-298 | a connected node is asked to remove the files of exactly the failed jobs that exist |
| Controller.Server.BatchHandleTerminal | internal/controller/grpc/handlers.go:232-300 | completions are applied before failures, each by one report per job |
| Controller.Server.PushJobStatuses | internal/controller/grpc/handlers.go:163-196 | the table becomes that of the pushed reports, and the node is asked to remove the failed jobs' files |
| Controller.Server.ReportUpload | internal/controller/grpc/handlers.go:329-366 | an error marks the upload failed; success records the remote copy and rewrites the links; refused for an unknown job |
| Controller.Server.ListPendingUploads | internal/controller/grpc/handlers.go:370-388 | returns exactly the claimable jobs of the node, now marked as uploading |
| Controller.Server.ReapStaleNodes | internal/controller/server.go:386-402 | stale nodes and their jobs go offline, then old inactive jobs of online nodes are restored |
| Controller.Server.DeleteNode | internal/controller/api/handlers/nodes.go:89-104 | only a known offline node is deleted, after its jobs have failed |
| Controller.MarkNodeJobsForOffline | internal/database/nodeoffline.go:22-30 | running jobs fail, then local completed ones become inactive |
| Service.DownloadService.GetJobByStorageKey | internal/database/queries/jobs.sql:9-10 | finds the job of a storage key whenever there is one |
| Service.DownloadService.FindDownload | internal/database/queries/downloads.sql:103-105 | finds the user's download of a job whenever there is one |
| Service.DownloadService.Dispatch | internal/core/service/download.go:234-277 | records the node's answer: active with location, or failed with its message |
| Service.DownloadService.Add | internal/core/service/download.go:117-278 | issues the statements and gives the answer of the specification of Add, against the database as it is |
| Service.DownloadService.Delete | internal/core/service/download.go:467-514 | refused without ownership; otherwise the download goes, and with the last one the job, whose content is then gone from its connected node or from remote storage while every other job keeps its content |
| Service.DownloadService.ListUserJobs | internal/database/queries/downloads.sql:142-153 | each download of the user once, with its job's true download count |
| Service.DownloadService.DeleteUser | internal/core/service/download.go:517-582 | keeps the invariant; exactly the jobs without another user go, and exactly their content, each one cancelled before its removal if it was running |
| Effects.AllCleanedUp | internal/core/service/download.go:483-509 | the calls for deleted jobs remove their content, cancel exactly the running ones first, go only to connected nodes and only about those jobs, and spare all others |
| Effects.PerformSpares | internal/core/service/download.go:528-552 | calls about deleted jobs leave the content of any other job where it is |
| Service.DownloadService.ReconcileStaleJobs | internal/core/service/download.go:671-685 | fails exactly the running jobs that are too old |
| Service.DownloadService.ListFiles | internal/core/service/download.go:295-338 | where files are listed from, or why not; in a consistent database "no node assigned" is for failed jobs only |
| Startup.IsStorageKeyDir | internal/core/util/storage.go:11-21 | accepts exactly names of 32 lower-case hexadecimal digits |
| Startup.DerivedKeysAreRecognized | internal/core/util/storage.go:11-21 | every derived storage key names a directory that the scans recognize |
| Startup.ScanStorageKeys | internal/core/util/storage.go:25-43 | returns each key with a directory in a readable path once |
| Startup.RemoveOrphanedDirs | internal/core/util/storage.go:46-64 | removes exactly the key directories that are not valid, and nothing else |
| Startup.CleanedKeys | internal/core/util/storage.go:46-64 | the keys that remain on disk are those on disk before that are valid |
| Startup.ReconcileNodeOnStartup | internal/database/reconcile.go:25-62 | restores inactive jobs on disk, fails the rest, counts both, and returns the valid keys |
| Startup.CountsAddUp | internal/database/reconcile.go:35-50 | restored plus failed is the number of jobs inactive before |
| Startup.ReconcileIsFinal | internal/database/reconcile.go:25-62 | a second reconciliation against any disk changes nothing and no job is left inactive |
| Startup.AfterStartup | internal/controller/server.go:161-170 | after start-up each of the node's jobs is completed exactly if it was completed or inactive with files on disk, else failed; other rows are untouched |
| Startup.StartupValidKeys | internal/controller/server.go:161-177 | all keys that are valid after start-up are on disk |
| Startup.StartNode | internal/controller/server.go:161-177 | with the removal done at once, disk and table agree exactly: the remaining key directories are those of the node's jobs that are not failed |
| Startup.ReconcileWorker | internal/worker/server.go:416-439 | no job stays inactive and the directories left are those on disk that are valid |
| Startup.ReconcileNode | internal/worker/server.go:415-457 | without an answer the rows stay and only invalid directories go; without the list of valid keys nothing is removed |
| Cleanup.BringsExactly | internal/database/queries/jobs.sql:1-178 | a statement makes a storage key valid for a node if and only if it creates the job there, resets it to there, or revives it there from failed |
| Cleanup.TakesExactly | internal/database/queries/jobs.sql:1-178 | a statement makes a valid key invalid for a node if and only if it fails, moves or deletes the key's job there, uploads it, or deletes the node |
| Cleanup.ArrivesExactly | internal/database/queries/jobs.sql:52-54 | a key becomes valid over a run if and only if some step brings it and no later step takes it away |
| Cleanup.LateCleanupExactly | internal/controller/server.go:170-177 | keys are read, entry points run, directories are removed: every directory needed by then is spared if and only if no step of the run brought a job whose directory is on disk and whose key was not valid at the read, without a later step taking it away |
| Cleanup.WithoutArrivalsAllIsSpared | internal/controller/server.go:170-177 | a run that brings the node no key spares every directory |
| Cleanup.AddBringsExactly | internal/core/service/download.go:196-268 | an Add in between makes the node need the directory if and only if it created or reset the job there and was not refused |
| Cleanup.AddLosesDirectory | internal/controller/server.go:170-177 | a possible run in which the directory of an active job is removed |
| Cleanup.FirstState | internal/controller/grpc/handlers.go:23-81 | the first state of that run is reached from the empty tables by a sign-up and a registration |
| StatusLoop.Tracker.Add | internal/core/statusloop/statusloop.go:49-57 | tracks the job under its ID, replacing an earlier entry |
| StatusLoop.Tracker.Remove | internal/core/statusloop/statusloop.go:59-63 | forgets exactly that job |
| StatusLoop.Tracker.UpdateEngineJobID | internal/core/statusloop/statusloop.go:66-73 | renames a tracked job and never brings a removed one back |
| StatusLoop.Tracker.List | internal/core/statusloop/statusloop.go:75-83 | every tracked job once |
| StatusLoop.PollsJoin | internal/core/statusloop/statusloop.go:136-184 | polling disjoint sets of jobs one after the other is one poll of both |
| StatusLoop.PollsCommute | internal/core/statusloop/statusloop.go:136-184 | engines polled at the same time may update the tracker in any order |
| StatusLoop.ReportsJoin | internal/core/statusloop/statusloop.go:186-192 | merged results are the reports of all engines, still one per job |
| StatusLoop.GroupByEngine | internal/core/statusloop/statusloop.go:116-131 | the parallel columns hold each job of an engine once, row by row |
| StatusLoop.PollEngine | internal/core/statusloop/statusloop.go:147-182 | pairs answers with jobs by column, and changes the tracker only for its own jobs |
| StatusLoop.Poll | internal/core/statusloop/statusloop.go:113-193 | one report for each listed job whose engine answered, with the status of its own engine ID; finished jobs leave the tracker, superseded IDs are replaced |
| StatusLoop.ReportsCarryAnswers | internal/core/statusloop/statusloop.go:165-176 | every report carries, field by field, what the job's own engine said about the job's own engine ID |
| StatusLoop.TrackedAfterPoll | internal/core/statusloop/statusloop.go:155-182 | unanswered jobs stay as they are, completed and failed ones go, all others go on under the ID in the answer |
| Aria2.Engine.BatchStatus | internal/core/engine/aria2/engine.go:122-198 | every requested ID is answered from what the daemon still knows after the clean-ups for the IDs before it; exactly the superseded and stopped results and the seeding downloads are removed |
| Aria2.KnownExactly | internal/core/engine/aria2/engine.go:154-197 | the daemon still knows a download after some IDs if and only if it was not stopped as seeding and, judged by the daemon as it was at first, no ID before cleaned it up |
| Aria2.AnswerIsOfFirstSnapshotExactly | internal/core/engine/aria2/engine.go:154-197 | an answer is that of the daemon as it was at first if and only if no download looked up for it was stopped or cleaned up for an ID before |
| Aria2.AskedTwiceIsLost | internal/core/engine/aria2/engine.go:164-195 | a query with one finished download twice: the first lookup removes it and the second reports it as lost |
| Aria2.Engine.IndexActive | internal/core/engine/aria2/engine.go:131-150 | an ID is found exactly if it is active or followed by an active download, the last such entry winning; exactly the followed IDs are marked, and exactly seeding downloads stopped |
| Aria2.Engine.AskSingly | internal/core/engine/aria2/engine.go:163-195 | an ID that is not active gets its own or its follower's status, or counts as lost |
| Aria2.StatusTells | internal/core/engine/aria2/types.go:61-81 | an answer is completed exactly if the download that answers is complete or an active seeder, failed exactly if it is removed or in error or the ID is lost, queued exactly if it waits; sizes, speed, progress, name and error are the response's own |
| Aria2.BatchTells | internal/core/engine/aria2/engine.go:122-249 | so for every answer of a query, about the download that answers from what the daemon still knows |
| Aria2.FinishedAreCleanedUp | internal/core/engine/aria2/engine.go:176-195 | a query leaves no result of a download it found complete or in error, nor of one that is followed |
| Aria2.UnfinishedAreKept | internal/core/engine/aria2/engine.go:176-195 | the result of a download that nothing follows and that has not ended is kept |
| Aria2.SeedingAreCleanedUp | internal/core/engine/aria2/engine.go:131-162 | seeding downloads lose their results, and metadata that active downloads follow does once asked about |
| Aria2.NewIdNamesSameDownload | internal/core/engine/aria2/engine.go:127-188 | an answer is about the ID or its follower, and asking under the ID in the answer gives the same answer |
| Aria2.HandOverIsCoherent | internal/core/engine/aria2/engine.go:127-141 | the hand-over itself, metadata complete and content active with both known, is such a state, and both IDs give the content's status |
| Aria2.MetadataReportedExactly | internal/core/engine/aria2/engine.go:175-189 | a followed metadata download is reported as itself exactly when its follower is neither active nor reachable |
| Aria2.PrematureEndExactly | internal/core/engine/aria2/engine.go:163-195 | once a magnet's metadata download is over, its job is reported as ended before its content is over if and only if the daemon shows the content neither as active nor on request |
| Aria2.PollAgain | internal/core/statusloop/statusloop.go:155-182 | of two polls in a row, the second on the daemon as the first query leaves it, a job still tracked gets the same answer under the ID taken over if and only if it was not reported by a metadata download whose follower is unknown; then it leaves the tracker as lost |
| Aria2.OrphanIsLost | internal/core/engine/aria2/engine.go:175-189 | a job whose paused metadata download names an unknown follower: answered once, then lost |
| Sink.PushKeeps | internal/worker/server.go:471-526 | each push keeps the bound, only terminal reports in the buffer, and the order of all terminal reports |
| Sink.NothingIsReordered | internal/worker/server.go:471-526 | after any calls and failures, settled reports followed by the buffer are all terminal reports handed in, in order |
| Sink.NothingLostExactly | internal/worker/server.go:471-526 | delivered reports followed by the buffer are everything handed in if and only if nothing was dropped |
| Sink.LossExactly | internal/worker/server.go:508-516 | a push drops reports if and only if it fails with more than the bound pending |
| Sink.LatestAreSafe | internal/worker/server.go:459-515 | the latest 1000 terminal reports are never dropped, only older ones |
| Sink.GrpcSink.PushStatuses | internal/worker/server.go:471-526 | sends buffered, new terminal and progress reports in this order; uploads are triggered exactly after an accepted completion |
| Pipeline.EndedAreReported | internal/core/statusloop/statusloop.go:155-182 | a poll makes exactly one final report for each job that leaves the tracker by it |
| Pipeline.PollConserves | internal/core/statusloop/statusloop.go:101-193 | a poll accounts for every dispatch |
| Pipeline.PushConserves | internal/worker/server.go:471-526 | a push accounts for every dispatch, whether it succeeds, buffers or overflows |
| Pipeline.RunConserves | internal/core/statusloop/statusloop.go:86-110 | every run, with requests at any point of the loop, accounts for every dispatch |
| Pipeline.CalmIsNeverLate | internal/core/statusloop/statusloop.go:94-101 | without a cancellation between listing and polling no final report is late |
| Pipeline.NothingIsLost | internal/core/statusloop/statusloop.go:86-193 | from the start, the dispatches of a job equal its places: tracked, displaced, cancelled, in flight, buffered, delivered, dropped |
| Pipeline.PollActsOnListedExactly | internal/core/statusloop/statusloop.go:155-182 | a poll leaves entries newer than its list alone, whatever engines may answer, if and only if there are none |
| Pipeline.PollIsExactBetween | internal/core/statusloop/statusloop.go:90-109 | over a run: a poll can remove only jobs whose own answer is final if and only if no listed job was last redispatched as something else between listing and polling |
| Pipeline.RedispatchLosesTracking | internal/core/statusloop/statusloop.go:155-182 | a concrete run in which a running job falls out of the tracker |
| Pipeline.IdsStayTogether | internal/core/statusloop/statusloop.go:161-163 | a poll and push keep the row's engine ID equal to the tracked one, also over a hand-over |
| Pipeline.RowShowsEngine | internal/core/statusloop/statusloop.go:165-176 | when a poll's reports reach the controller, the row of each answered job has its engine's state, sizes, speed, progress and name |
| Pipeline.AddedIsTracked | internal/core/service/download.go:242-268 | after an accepted Add the row's engine ID is the tracked one |
| Pipeline.NodeServer.DispatchJob | internal/core/node/server.go:38-64 | an accepted job is tracked under the engine's ID with a local location relative to the node's directory; a refused one is not tracked |
| Pipeline.NodeServer.CancelJob | internal/core/node/server.go:74-84 | the job is forgotten exactly if the engine cancelled it |
| Pipeline.NodeServer.Tick | internal/core/statusloop/statusloop.go:90-109 | one turn of the loop is a possible sequence of pipeline steps |
| Uploader.OwnDirectory | internal/controller/uploader.go:69 | different storage keys have different local directories |
| Uploader.DirectoryOfFiles | internal/controller/uploader.go:69 | the directory an uploader copies is the one where an engine with the default directory keeps the job's files |
| Uploader.RemovedIsSafe | internal/controller/uploader.go:128-131 | deleting the files of a job whose row points at a remote copy leaves every job's content safe |
| Uploader.Provider.UploadWithRetries | internal/controller/uploader.go:79-104 | at most four attempts and 210 seconds; succeeds exactly when a reached attempt succeeds |
| Uploader.Host.UploadJob | internal/controller/uploader.go:65-132 | at every point the process may stop at, content that was safe is safe; states database and disk for each outcome |
| Uploader.Host.RecordAndRemove | internal/controller/uploader.go:106-131 | files are deleted only after the row points at the remote copy |
| Uploader.Host.UploadFromWorker | internal/worker/uploader.go:65-113 | the content stays safe if and only if the report was applied or nothing was deleted |
| Links.LikePrefix | internal/database/queries/jobs.sql:170 | a LIKE pattern without wildcards in the prefix matches exactly the texts with that prefix |
| Links.WildcardsMatchOthers | internal/database/queries/jobs.sql:170 | with an underscore in an engine's name the statement would rewrite links of another directory |
| Links.OneSlash | internal/core/storage/registry.go:41-46 | a remote file URI has one slash before the file's path, and is the remote URI itself without a path |
| Links.UploadUriIs | internal/core/storage/rclone.go:111-124 | the URI of an upload, spelled out, names the remote, base path and key that listing and deleting use |
| Links.RewriteExactly | internal/database/queries/jobs.sql:163-170 | a rewritten link is the URI a fresh listing builds if and only if it was the engine/key/file path |
| Links.LinksFollowFiles | internal/core/service/download.go:424-427 | for generated links this holds if and only if the engine's directory is the default one |
| Links.RewriteTwice | internal/database/queries/jobs.sql:163-170 | rewriting again changes nothing |
| Links.RewriteLinksTable | internal/database/queries/jobs.sql:163-170 | the statement is idempotent and leaves links of other jobs alone |
| Links.RemoteIsNotOld | internal/core/storage/rclone.go:111-124 | no remote URI looks like a local path of an engine |
| Bencode.BdecodeString | internal/core/util/torrent.go:121-144 | the loops compute the reader's specification, with 64-bit wrap-around and panics |
| Bencode.BdecodeSkip | internal/core/util/torrent.go:147-181 | the recursive loops compute the skipper's specification |
| Bencode.ReadStringAt | internal/core/util/torrent.go:121-144 | a well-formed string text is read back whatever follows |
| Bencode.ReadStringSound | internal/core/util/torrent.go:121-144 | what is read is a well-formed string text at that place |
| Bencode.SkipExact | internal/core/util/torrent.go:147-181 | the skipper goes from pos to n if and only if the bytes between are a word of the accepted grammar |
| Bencode.WordsArePrefixFree | internal/core/util/torrent.go:147-181 | no word is a proper prefix of another, so the end is unique and later bytes do not matter |
| Bencode.SkippedReadsSafely | internal/core/util/torrent.go:121-181 | reading a skipped value as a string never panics and agrees on its end |
| Bencode.SkipEncoded | internal/core/util/torrent.go:147-181 | every value of BEP 3, section "bencoding", is skipped exactly, wherever it stands |
| Bencode.ReadEncoded | internal/core/util/torrent.go:121-144 | an encoded string decodes to itself |
| Bencode.LengthsCountModulo | internal/core/util/torrent.go:130-137 | a bare length is accepted if and only if it is a multiple of 2^64 |
| Bencode.ExactIsFitting | internal/core/util/torrent.go:121-181 | a tree is one of the grammar with mathematical lengths if and only if it is accepted and every length in it is below 2^63 |
| Bencode.OneTree | internal/core/util/torrent.go:147-181 | a word of the grammar has one tree |
| Bencode.SkipExactWord | internal/core/util/torrent.go:147-181 | the skipper accepts every word of the mathematical grammar, and what it accepts is such a word if and only if no length in it reaches 2^63 |
| Bencode.LargeLengthPasses | internal/core/util/torrent.go:130-143 | 2^64 as a length is accepted though it is no word of the mathematical grammar |
| Bencode.PanicExactly | internal/core/util/torrent.go:130-143 | reading panics if and only if the length, modulo 2^64, leaves the range of an int |
| Bencode.LargestLengthPanics | internal/core/util/torrent.go:130-143 | a length at which reading panics |
| Torrent.ExtractInfoName | internal/core/util/torrent.go:91-118 | the loop computes the specification of the name |
| Torrent.InfoNameExact | internal/core/util/torrent.go:91-118 | for any skippable value the name is the first "name" entry of the dictionary, and it never panics |
| Torrent.TorrentInfoHash | internal/core/util/torrent.go:11-38 | the loop computes the specification of the info hash |
| Torrent.InfoHashExact | internal/core/util/torrent.go:11-38 | succeeds exactly with the hash of the first info value's own bytes, whatever surrounds it |
| Torrent.TorrentToMagnet | internal/core/util/torrent.go:42-88 | the loop computes the specification of the magnet |
| Torrent.ToMagnetDefined | internal/core/util/torrent.go:42-88 | succeeds exactly on torrents with an info key |
| Torrent.TorrentKeys | internal/core/util/torrent.go:11-118 | URL submission keys a torrent by its first info value, upload by its last; the download is named after the last and the magnet carries the last announce string |
| Torrent.UploadAgreesWithUrl | internal/core/engine/aria2/engine.go:272-299 | upload and URL give one cache key if and only if first and last info value have the same hash, so always with one info key |
| Torrent.OneStorageKey | internal/core/service/storagekey.go:13-25 | with one info key, any two engines share one storage key for upload and URL |
| Torrent.TwoInfosDisagree | internal/core/util/torrent.go:42-88 | a concrete torrent with two info keys gets two identities |
| Magnet.UnescapeEscape | internal/core/util/torrent.go:78-87 | query unescaping inverts query escaping on all byte strings |
| Magnet.ResolveBuilt | internal/core/engine/aria2/engine.go:272-299 | a magnet of the built form resolves to its info hash in lower case (BEP 9, section "magnet URI format") |
| Magnet.NameOfBuilt | internal/core/service/download.go:709-722 | the display name of a built magnet is the torrent's name, or the hash without one |
| Magnet.StorageKeyFromCacheKey | internal/core/service/storagekey.go:22-25 | storage keys are 32 lower-case hexadecimal digits |
| Magnet.StorageKeyHashes | internal/core/service/storagekey.go:13-25 | a storage key is the first 16 bytes of the SHA-256 of "bt:hash:" and the info hash, or of the engine's name, ":url:" and the URL's key |
| Magnet.StorageKeysSeparate | internal/core/service/storagekey.go:13-25 | where these 16 bytes do not collide, two requests share a storage key if and only if they are for one info hash, or for one URL key of one engine |
| Magnet.PlainUrlsSeparate | internal/core/engine/aria2/engine.go:292-298 | plain URLs share a storage key if and only if the engine and the SHA-256 of the URL are the same |
| Magnet.MagnetWithParameters | internal/core/engine/aria2/engine.go:272-283 | a magnet with any parameters in any order is keyed by its first "xt" in lower case if that is a BitTorrent hash, else by its own SHA-256, and named by its first "dn", that hash, or itself |
| Magnet.MagnetWithFragment | internal/core/engine/aria2/engine.go:274-283 | a fragment does not change what a magnet is keyed by, unless it is malformed |
| Magnet.SemicolonsDropParameter | internal/core/engine/aria2/engine.go:274-283 | a parameter with a semicolon is dropped, the others are not |
| Magnet.NameOfPlainUrl | internal/core/service/download.go:724-732 | another URL is named by the last part of its path, else by its host, and one that does not parse by itself |
| Magnet.TrackerOfBuilt | internal/core/util/torrent.go:78-87 | a built magnet carries the announce URL it was built with as its tracker |
| Hex.DecodeEncode | internal/core/util/uuid.go:17-22 | decoding inverts encoding |
| Hex.EncodeDecode | internal/core/util/uuid.go:17-22 | encoding what was decoded gives the lower-case text |
| Scheduler.Fair | internal/controller/scheduler/strategy.go:27-30 | any m selections in a row among n candidates pick each m/n times, rounded down or up, when the counter does not wrap |
| Scheduler.FairAcrossWrapExactly | internal/controller/scheduler/strategy.go:27-30 | this holds over every stretch, wraps included, if and only if n divides 2^64 |
| Scheduler.RoundRobin.Select | internal/controller/scheduler/strategy.go:27-30 | picks by the counter before the increment, which wraps at 2^64 |
| Scheduler.SelectMany | internal/controller/scheduler/strategy.go:27-30 | a loop of selections gives each candidate its share |
| Scheduler.Scheduler.FindCandidates | internal/controller/scheduler/scheduler.go:50-78 | the candidates are the nodes that pass the engine and disk filter, in order |
| Scheduler.CandidatesInOrder | internal/controller/scheduler/scheduler.go:50-78 | the rotation follows the order of the nodes |
| Scheduler.Scheduler.SelectNode | internal/controller/scheduler/scheduler.go:44-110 | selects only eligible nodes; refuses only without one; an eligible preferred node leaves the rotation where it is |
| Ranges.PrintedReads | internal/core/storage/rclone.go:359-398 | a printed range spec is read as itself |
| Ranges.MeansWhatItSays | internal/core/storage/rclone.go:359-398 | accepted if and only if valid and satisfiable by section 14.1.2 of RFC 9110, and then exactly the selected positions |
| Ranges.AcceptedReads | internal/core/storage/rclone.go:359-398 | everything accepted reads as a valid range spec |
| Ranges.InBoundsExactly | internal/core/storage/rclone.go:359-398 | an accepted range lies within the file if and only if the file is not empty |
| Ranges.EmptyFile | internal/core/storage/rclone.go:369-377 | on an empty file suffix ranges pass as a range of no bytes |
| Ranges.ConformsExactly | internal/core/storage/rclone.go:364-391 | an accepted header conforms to the syntax of section 14.1.2 of RFC 9110 if and only if it has no '+' and no '-' in its last part |
| Ranges.SignsPass | internal/core/storage/rclone.go:379-391 | a header outside that syntax that is accepted |
| Ranges.AcceptedExactly | internal/core/storage/rclone.go:359-398 | a conforming header is accepted if and only if RFC 9110 calls it satisfiable and its numbers are 64-bit |
| Ranges.LargePositionsFail | internal/core/storage/rclone.go:389-392 | a satisfiable range whose last position does not fit 64 bits is refused |
| Ranges.ParsePrinted | internal/core/storage/rclone.go:379-397 | parsing inverts printing, cutting the last position back to the end |
| Ranges.ParseSigned | internal/core/storage/rclone.go:372-389 | printed numbers with a sign are read as that number, and exactly within 64 bits |
| Ranges.ParseOthers | internal/core/storage/rclone.go:372-389 | a text with anything but digits after an optional sign is not a number, nor is a sign alone or the empty text |
| Ranges.ChunksTile | internal/core/storage/rclone.go:194-207 | fetching a file by adjacent ranges of any size gives the file back |
| Uuid.UUIDToStr | internal/core/util/uuid.go:33-51 | the buffer loop prints the bytes grouped 8-4-4-4-12, and nothing for NULL |
| Uuid.TextToUUID | internal/core/util/uuid.go:11-24 | accepts 32 hexadecimal digits with hyphens anywhere, else NULL |
| Uuid.ParseFormatExactly | internal/core/util/uuid.go:11-51 | reading the printed text gives the UUID back if and only if it is valid or an all-zero NULL |
| Uuid.FormatParse | internal/core/util/uuid.go:11-51 | printing an accepted text gives its canonical lower-case form of section 4 of RFC 9562 |
| Uuid.AcceptedExactly | internal/core/util/uuid.go:11-24 | a text is accepted if and only if it has 32 hexadecimal digits of either case, hyphens aside |
| Uuid.SameUuidExactly | internal/core/util/uuid.go:11-24 | two accepted texts are one UUID if and only if they differ only in case and hyphens |

## Left out

- Add: taken as one atomic step; a report that arrives between its dispatch and its last update is outside the guarantee (see Histories.EarlyCompletionIsOverwritten). Database errors other than refused constraints are not modelled.
- Events.Trusted: the reports of workers are assumed to fit the rows, since the statements do not check it.
- Timestamps, heartbeats' ages and stale thresholds: conditions on age are arbitrary sets of rows or nodes; TouchDownload, link expiry and access counts are not modelled.
- Tokens of links: random and taken as unique; their generation and resolution, and the remote and streaming branches of GenerateLink, are not modelled.
- SHA-1 and SHA-256: arbitrary functions; their collisions are not excluded.
- Magnet URLs that the program itself does not build, such as "magnet:/x": what net/url makes of them is a parameter, as is url.Parse of other URLs for display names.
- strings.ToLower: on ASCII text only, as info hashes are; the JSON encoding of rows and messages is not modelled.
- filepath.Join and Clean: paths are joined with "/" and assumed clean; the file system is a map from directories to listings, without links or permissions, and a removal either happens or not.
- Startup.StartNode: no dispatch happens between the reconciliation and the removal of directories, which the program does in the background (Cleanup.LateCleanupExactly covers the difference).
- StatusLoop.Poll: engines are polled one after the other in any order, which PollsCommute justifies; engines are arbitrary answers, and only aria2's side is modelled.
- Aria2.Engine.BatchStatus: the daemon changes during a query only by the query's own clean-up calls, which always succeed; seeder counts, ETA and engine state texts are left out, and progress is a real number.
- Service.DownloadService.ListFiles: says where the files are listed from; the listing itself, by a node or a storage provider, is not modelled.
- Sink.GrpcSink.PushStatuses: a call is acknowledged or not; whether an unacknowledged call was applied is covered by Histories.LostAcknowledgement, not by the sink.
- Liveness: the loop pushes only while something is tracked, so a buffered report may wait; uploads that hang after a controller restart are not released by the program.
- Effects.AllCleanedUp: is about calls that go through; the program does not repeat a failed one, and content on a node that is not connected stays until the node's next cleanup.
- Uploader.Host.UploadJob: one upload at a time; the limit of two concurrent uploads and statements of others during an upload are not modelled.
- The controller's own sink, which calls the handlers directly: it adds nothing to the push of the handlers.
- The yt-dlp engine, HTTP, gRPC, templates, configuration, authentication and statistics: no protocol of their own.
- UUID texts in reports: job IDs are numbers in the job protocol; an ID that is not a UUID is not modelled there.
