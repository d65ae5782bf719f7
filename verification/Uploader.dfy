/**
 The uploaders of the controller (internal/controller/uploader.go) and of a worker
 (internal/worker/uploader.go): copy a finished job to remote storage, record it, delete the local files.
 Content survives a stop at any point of the controller's upload; for a worker this hangs on its report.
 */
module Uploader {
  import opened Wrappers
  import opened Reports
  import opened Tables
  import opened Protocol
  import Events
  import opened Database
  import Links

  const MAX_RETRIES: nat := 3

  // ---------- Where content is ----------

  /** Local directories and remote URIs with complete content, and the database. */
  datatype World = World(local: set<string>, remote: set<string>, db: Db)

  function LocalDir(downloadDir: string, engine: string, storageKey: string): string {
    downloadDir + "/" + engine + "/" + storageKey
  }

  /** The job's content is on the local disk, or its row points at a remote copy. */
  predicate Safe(w: World, downloadDir: string, j: Job) {
    LocalDir(downloadDir, j.engine, j.storageKey) in w.local
    || (j.fileLocation.Some? && j.fileLocation.value in w.remote)
  }

  /** Every job that was safe is safe. */
  ghost predicate KeepsSafe(before: World, now: World, downloadDir: string) {
    forall id :: id in before.db.jobs && Safe(before, downloadDir, before.db.jobs[id]) ==>
      id in now.db.jobs && Safe(now, downloadDir, now.db.jobs[id])
  }

  ghost predicate KeysAreKeys(jobs: Jobs) {
    forall id :: id in jobs ==> |jobs[id].storageKey| == 32
  }

  /** Different storage keys have different directories. */
  lemma OwnDirectory(d: string, e1: string, k1: string, e2: string, k2: string)
    requires |k1| == |k2| && k1 != k2
    ensures LocalDir(d, e1, k1) != LocalDir(d, e2, k2)
  {
    var x, y := LocalDir(d, e1, k1), LocalDir(d, e2, k2);
    assert x[|x| - |k1|..] == k1 && y[|y| - |k2|..] == k2;
  }

  /** The directory an uploader copies is where an engine with the default directory keeps the job's files. */
  lemma DirectoryOfFiles(downloadDir: string, engine: string, storageKey: string, f: string)
    ensures Links.FilePath(downloadDir + "/" + engine, storageKey, f) == LocalDir(downloadDir, engine, storageKey) + "/" + f
    ensures LocalDir(downloadDir, engine, storageKey) == downloadDir + "/" + engine + "/" + storageKey
  {
  }

  lemma MoreCopies(w: World, now: World, d: string)
    requires w.local <= now.local && w.remote <= now.remote && now.db.jobs == w.db.jobs
    ensures KeepsSafe(w, now, d)
  {
  }

  lemma SafeAgain(a: World, b: World, c: World, d: string)
    requires KeepsSafe(a, b, d) && KeepsSafe(b, c, d)
    ensures KeepsSafe(a, c, d)
  {
    hide Safe;
  }

  /** Statements that leave a job's location alone leave it safe. */
  lemma StatusIsHarmless(w: World, id: JobId, d: string)
    ensures KeepsSafe(w, w.(db := Next(w.db, UpdateJobs(SetUploadStatus(id, UploadFailed)))), d)
  {
    hide LocalDir;
  }

  lemma RecordedIsSafe(w: World, id: JobId, uri: string, d: string)
    requires uri in w.remote
    ensures KeepsSafe(w, w.(db := Next(w.db, UpdateJobs(CompleteUpload(id, uri)))), d)
  {
    hide LocalDir;
  }

  /** Deleting the files of a job whose row points at a remote copy. */
  lemma RemovedIsSafe(w: World, id: JobId, d: string)
    requires KeysUnique(w.db.jobs) && KeysAreKeys(w.db.jobs) && id in w.db.jobs
    requires var j := w.db.jobs[id]; j.fileLocation.Some? && j.fileLocation.value in w.remote
    ensures KeepsSafe(w, w.(local := w.local - {LocalDir(d, w.db.jobs[id].engine, w.db.jobs[id].storageKey)}), d)
  {
    hide LocalDir;
    var j := w.db.jobs[id];
    forall k | k in w.db.jobs && k != id
      ensures LocalDir(d, w.db.jobs[k].engine, w.db.jobs[k].storageKey) != LocalDir(d, j.engine, j.storageKey)
    {
      OwnDirectory(d, w.db.jobs[k].engine, w.db.jobs[k].storageKey, j.engine, j.storageKey);
    }
  }

  // ---------- Attempts ----------

  /** What happens around one attempt; a failed one may still have left a complete copy. */
  datatype Try = Try(stoppedBefore: bool, succeeds: bool, landed: bool, stoppedWaiting: bool)

  datatype Tried = Copied(uri: string) | Exhausted | Stopped

  predicate FailsAndGoesOn(t: Try, attempt: nat) {
    !t.stoppedBefore && !t.succeeds && (attempt < MAX_RETRIES ==> !t.stoppedWaiting)
  }

  /** Some attempt succeeds and is reached. */
  predicate SucceedsInTime(tries: seq<Try>) {
    exists k :: 0 <= k < |tries| && tries[k].succeeds && !tries[k].stoppedBefore
                && forall i :: 0 <= i < k ==> FailsAndGoesOn(tries[i], i)
  }

  class Provider {
    const remoteName: string
    const basePath: string
    /** The URIs that hold a complete copy. */
    var objects: set<string>

    constructor (remoteName: string, basePath: string)
      ensures objects == {} && this.remoteName == remoteName && this.basePath == basePath
    {
      this.remoteName, this.basePath, objects := remoteName, basePath, {};
    }

    method Upload(storageKey: string, t: Try) returns (result: Option<string>)
      modifies this
      ensures result == if t.succeeds then Some(Links.UploadUri(remoteName, basePath, storageKey)) else None
      ensures objects == old(objects) + if t.succeeds || t.landed
                                        then {Links.UploadUri(remoteName, basePath, storageKey)} else {}
    {
      var uri := Links.UploadUri(remoteName, basePath, storageKey);
      if t.succeeds || t.landed {
        objects := objects + {uri};
      }
      result := if t.succeeds then Some(uri) else None;
    }

    /**
     At most four attempts with 30, 60 and 120 seconds between them. `seen` records what is stored at
     every point.
     */
    method UploadWithRetries(storageKey: string, tries: seq<Try>)
      returns (result: Tried, attempts: nat, waited: nat, ghost seen: seq<set<string>>)
      requires |tries| == MAX_RETRIES + 1
      modifies this
      ensures result.Exhausted? <==> forall k :: 0 <= k < |tries| ==> FailsAndGoesOn(tries[k], k)
      ensures result.Copied? <==> SucceedsInTime(tries)
      ensures result.Copied? ==> result.uri == Links.UploadUri(remoteName, basePath, storageKey) && result.uri in objects
      ensures attempts <= 4 && waited <= 210 && (result.Exhausted? ==> attempts == 4 && waited == 210)
      ensures old(objects) <= objects <= old(objects) + {Links.UploadUri(remoteName, basePath, storageKey)}
      ensures forall i :: 0 <= i < |seen| ==> old(objects) <= seen[i] <= objects
    {
      hide Links.UploadUri;
      var backoffs: seq<nat> := [30, 60, 120];
      ghost var was := objects;
      attempts, waited, seen := 0, 0, [];
      for attempt := 0 to MAX_RETRIES + 1
        invariant attempts == attempt && waited == [0, 30, 90, 210, 210][attempt]
        invariant forall k :: 0 <= k < attempt ==> FailsAndGoesOn(tries[k], k)
        invariant was <= objects <= was + {Links.UploadUri(remoteName, basePath, storageKey)}
        invariant forall i :: 0 <= i < |seen| ==> was <= seen[i] <= objects
      {
        var t := tries[attempt];
        if t.stoppedBefore {
          return Stopped, attempts, waited, seen;
        }
        attempts := attempts + 1;
        var r := Upload(storageKey, t);
        seen := seen + [objects];
        if r.Some? {
          return Copied(r.value), attempts, waited, seen;
        }
        if attempt < MAX_RETRIES {
          if t.stoppedWaiting {
            return Stopped, attempts, waited, seen;
          }
          waited := waited + backoffs[attempt];
        }
      }
      return Exhausted, attempts, waited, seen;
    }
  }

  class Disk {
    var dirs: set<string>

    constructor ()
      ensures dirs == {}
    {
      dirs := {};
    }
  }

  /** Whether each statement or call goes through, and whether deleting the files has an effect. */
  datatype Luck = Luck(tries: seq<Try>, records: bool, completes: bool, rewrites: bool, removes: bool)

  datatype Outcome = NoFiles | GaveUp | Interrupted | NotRecorded | Recorded(uri: string)

  /** The database after the controller's upload. */
  function Consequence(s: Db, id: JobId, outcome: Outcome, luck: Luck): Db {
    match outcome
    case Recorded(uri) =>
      if luck.rewrites then Events.After(s, Events.UploadSucceeded(id, uri))
      else Next(s, UpdateJobs(CompleteUpload(id, uri)))
    case Interrupted => s
    case NotRecorded => s
    case _ => if luck.records then Events.After(s, Events.UploadErred(id)) else s
  }

  class Host {
    const db: Database
    const provider: Provider
    const disk: Disk
    const downloadDir: string

    constructor (db: Database, provider: Provider, disk: Disk, downloadDir: string)
      ensures this.db == db && this.provider == provider && this.disk == disk && this.downloadDir == downloadDir
    {
      this.db, this.provider, this.disk, this.downloadDir := db, provider, disk, downloadDir;
    }

    ghost function Now(): World
      reads this, db, provider, disk
    {
      World(disk.dirs, provider.objects, db.View())
    }

    method SetStatus(id: JobId, records: bool)
      modifies db
      ensures db.View() == if records then Events.After(old(db.View()), Events.UploadErred(id)) else old(db.View())
    {
      if records {
        ghost var s := db.View();
        var _ := db.Execute(UpdateJobs(SetUploadStatus(id, UploadFailed)));
        RunOne(s, UpdateJobs(SetUploadStatus(id, UploadFailed)));
      }
    }

    /**
     The controller's upload of a job: `trace` holds the world at every point at which the process may
     stop, and content that was safe before is safe at all of them.
     */
    method UploadJob(id: JobId, engine: string, storageKey: string, luck: Luck) returns (outcome: Outcome, ghost trace: seq<World>)
      requires |luck.tries| == MAX_RETRIES + 1 && KeysUnique(db.jobs) && KeysAreKeys(db.jobs)
      requires id in db.jobs ==> db.jobs[id].engine == engine && db.jobs[id].storageKey == storageKey
      modifies db, provider, disk
      ensures |trace| > 0 && trace[0] == old(Now()) && trace[|trace| - 1] == Now()
      ensures forall i :: 0 <= i < |trace| ==> KeepsSafe(old(Now()), trace[i], downloadDir)
      ensures db.View() == Consequence(old(db.View()), id, outcome, luck)
      ensures outcome.NoFiles? <==> LocalDir(downloadDir, engine, storageKey) !in old(disk.dirs)
      ensures outcome.GaveUp? ==> forall k :: 0 <= k <= MAX_RETRIES ==> FailsAndGoesOn(luck.tries[k], k)
      ensures outcome.Recorded? || outcome.NotRecorded? ==> SucceedsInTime(luck.tries)
      ensures outcome.Recorded? <== SucceedsInTime(luck.tries) && luck.completes && id in old(db.jobs)
                                    && LocalDir(downloadDir, engine, storageKey) in old(disk.dirs)
      ensures outcome.Recorded? ==> luck.completes && id in old(db.jobs) && IsRemoteUri(outcome.uri)
      ensures disk.dirs == old(disk.dirs) - if outcome.Recorded? && luck.removes
                                            then {LocalDir(downloadDir, engine, storageKey)} else {}
    {
      hide Next, Events.After, LocalDir, Safe, KeepsSafe, KeysUnique, KeysAreKeys, FailsAndGoesOn, SucceedsInTime, Links.UploadUri;
      ghost var start := Now();
      var localDir := LocalDir(downloadDir, engine, storageKey);
      trace := [start];
      MoreCopies(start, start, downloadDir);
      if localDir !in disk.dirs {
        SetStatus(id, luck.records);
        StatusIsSafe(start, id, luck.records, downloadDir);
        trace := trace + [Now()];
        return NoFiles, trace;
      }
      var tried, attempts, waited, seen := provider.UploadWithRetries(storageKey, luck.tries);
      ghost var copied := Now();
      forall i | 0 <= i < |seen| ensures KeepsSafe(start, start.(remote := seen[i]), downloadDir) {
        MoreCopies(start, start.(remote := seen[i]), downloadDir);
      }
      trace := trace + seq(|seen|, i requires 0 <= i < |seen| => start.(remote := seen[i])) + [copied];
      MoreCopies(start, copied, downloadDir);
      match tried {
        case Stopped => return Interrupted, trace;
        case Exhausted =>
          SetStatus(id, luck.records);
          StatusIsSafe(copied, id, luck.records, downloadDir);
          SafeAgain(start, copied, Now(), downloadDir);
          trace := trace + [Now()];
          return GaveUp, trace;
        case Copied(uri) =>
          if !luck.completes || id !in db.jobs {
            return NotRecorded, trace;  // the statement fails or returns no row
          }
          RemoteUri(provider.remoteName, provider.basePath, storageKey);
          ghost var more := RecordAndRemove(id, engine, storageKey, uri, luck.rewrites, luck.removes);
          forall i | 0 <= i < |more| ensures KeepsSafe(start, more[i], downloadDir) {
            SafeAgain(start, copied, more[i], downloadDir);
          }
          trace := trace + more;
          return Recorded(uri), trace;
      }
    }

    /** The last part: record the remote copy, rewrite links, and only then delete the files. */
    method RecordAndRemove(id: JobId, engine: string, storageKey: string, uri: string, rewrites: bool, removes: bool)
      returns (ghost trace: seq<World>)
      requires id in db.jobs && db.jobs[id].engine == engine && db.jobs[id].storageKey == storageKey
      requires KeysUnique(db.jobs) && KeysAreKeys(db.jobs) && uri in provider.objects
      modifies db, disk
      ensures |trace| > 0 && trace[|trace| - 1] == Now()
      ensures forall i :: 0 <= i < |trace| ==> KeepsSafe(old(Now()), trace[i], downloadDir)
      ensures db.View() == if rewrites then Events.After(old(db.View()), Events.UploadSucceeded(id, uri))
                           else Next(old(db.View()), UpdateJobs(CompleteUpload(id, uri)))
      ensures disk.dirs == old(disk.dirs) - if removes then {LocalDir(downloadDir, engine, storageKey)} else {}
    {
      hide Next, LocalDir, Safe, KeepsSafe, KeysUnique, KeysAreKeys;
      ghost var start := Now();
      var localDir := LocalDir(downloadDir, engine, storageKey);
      var _ := db.Execute(UpdateJobs(CompleteUpload(id, uri)));
      ghost var recorded := Now();
      RecordedIsSafe(start, id, uri, downloadDir);
      var oldPrefix := engine + "/" + storageKey;
      if rewrites {
        var _ := db.Execute(RewriteLinks(id, oldPrefix, uri));
        RunTwo(start.db, UpdateJobs(CompleteUpload(id, uri)), RewriteLinks(id, oldPrefix, uri));
        LinksOnly(recorded.db, id, oldPrefix, uri);
      }
      ghost var rewritten := Now();
      MoreCopies(recorded, rewritten, downloadDir);
      SafeAgain(start, recorded, rewritten, downloadDir);
      trace := [recorded, rewritten];
      if removes {
        disk.dirs := disk.dirs - {localDir};
        RecordedRow(start.db, id, uri);
        RemovedIsSafe(rewritten, id, downloadDir);
        SafeAgain(start, rewritten, Now(), downloadDir);
      } else {
        assert disk.dirs == disk.dirs - {};
      }
      trace := trace + [Now()];
    }

    /**
     The worker's upload deletes the files whether or not its report reached the controller: the content
     of a job on the worker is safe afterwards exactly when the report was applied or nothing was deleted.
     */
    method UploadFromWorker(id: JobId, engine: string, storageKey: string, luck: Luck, reported: bool)
      returns (outcome: Outcome)
      requires |luck.tries| == MAX_RETRIES + 1
      requires id in db.jobs && db.jobs[id].engine == engine && db.jobs[id].storageKey == storageKey
      requires Local(db.jobs[id]) && forall uri :: uri in provider.objects ==> IsRemoteUri(uri)
      modifies db, provider, disk
      ensures id in db.jobs
      ensures outcome.NoFiles? <==> LocalDir(downloadDir, engine, storageKey) !in old(disk.dirs)
      ensures Safe(Now(), downloadDir, db.jobs[id])
         <==> !outcome.NoFiles? && (reported || !outcome.Recorded? || !luck.removes)
      ensures outcome.Recorded? <==> !outcome.NoFiles? && SucceedsInTime(luck.tries)
    {
      hide Links.UploadUri, LocalDir, Next, FailsAndGoesOn, SucceedsInTime;
      var localDir := LocalDir(downloadDir, engine, storageKey);
      ghost var s := db.View();
      RemoteUri(provider.remoteName, provider.basePath, storageKey);
      assert !IsRemoteUri(db.jobs[id].fileLocation.value) by { assert db.jobs[id].fileLocation.value[0] == 'f'; }
      assert db.jobs[id].fileLocation.value !in provider.objects;
      if localDir !in disk.dirs {
        SetStatus(id, reported);
        ErredRow(s, id);
        return NoFiles;
      }
      var tried, attempts, waited, seen := provider.UploadWithRetries(storageKey, luck.tries);
      match tried {
        case Stopped => return Interrupted;
        case Exhausted =>
          SetStatus(id, reported);
          ErredRow(s, id);
          return GaveUp;
        case Copied(uri) =>
          if reported {
            var _ := db.Execute(UpdateJobs(CompleteUpload(id, uri)));
            RecordedRow(s, id, uri);
            ghost var recorded := db.View();
            var oldPrefix := engine + "/" + storageKey;
            var _ := db.Execute(RewriteLinks(id, oldPrefix, uri));
            LinksOnly(recorded, id, oldPrefix, uri);
          }
          if luck.removes {
            disk.dirs := disk.dirs - {localDir};
          }
          return Recorded(uri);
      }
    }
  }

  lemma StatusIsSafe(w: World, id: JobId, records: bool, d: string)
    ensures KeepsSafe(w, w.(db := if records then Events.After(w.db, Events.UploadErred(id)) else w.db), d)
  {
    RunOne(w.db, UpdateJobs(SetUploadStatus(id, UploadFailed)));
    hide Next;
    if records {
      StatusIsHarmless(w, id, d);
    } else {
      MoreCopies(w, w, d);
    }
  }

  lemma RemoteUri(remote: string, base: string, key: string)
    ensures IsRemoteUri(Links.UploadUri(remote, base, key))
  {
  }

  lemma RecordedRow(s: Db, id: JobId, uri: string)
    requires id in s.jobs
    ensures var t := Next(s, UpdateJobs(CompleteUpload(id, uri)));
            && t.jobs.Keys == s.jobs.Keys
            && t.jobs[id].fileLocation == Some(uri)
            && (forall k :: k in s.jobs ==> t.jobs[k].storageKey == s.jobs[k].storageKey && t.jobs[k].engine == s.jobs[k].engine)
            && (KeysUnique(s.jobs) ==> KeysUnique(t.jobs))
            && (KeysAreKeys(s.jobs) ==> KeysAreKeys(t.jobs))
  {
  }

  lemma LinksOnly(s: Db, id: JobId, oldPrefix: string, uri: string)
    ensures Next(s, RewriteLinks(id, oldPrefix, uri)).jobs == s.jobs
  {
  }

  lemma ErredRow(s: Db, id: JobId)
    requires id in s.jobs
    ensures var t := Events.After(s, Events.UploadErred(id));
            id in t.jobs && t.jobs[id] == s.jobs[id].(uploadStatus := UploadFailed)
  {
    RunOne(s, UpdateJobs(SetUploadStatus(id, UploadFailed)));
  }
}
