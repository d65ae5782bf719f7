/**
 Agreement between the job table and a node's disk: scanning and cleaning download directories
 (internal/core/util/storage.go), reconciliation (internal/database/reconcile.go), and the controller's
 start-up sequence (internal/controller/server.go).
 */
module Startup {
  import opened Wrappers
  import opened Reports
  import opened Tables
  import opened Protocol
  import opened Histories
  import opened DownloadSteps
  import Events
  import opened Database
  import Controller
  import Hex
  import Magnet

  // ---------- The file system ----------

  datatype Entry = Entry(name: string, isDir: bool)

  /** Download directories with their listings; a directory that is not here cannot be read. */
  type Dirs = map<string, seq<Entry>>

  class FileSystem {
    var dirs: Dirs

    constructor (dirs: Dirs)
      ensures this.dirs == dirs
    {
      this.dirs := dirs;
    }

    /** Removes a subdirectory. */
    method RemoveAll(dir: string, name: string)
      requires dir in dirs
      modifies this
      ensures dirs == old(dirs)[dir := Without(old(dirs)[dir], {name})]
    {
      dirs := dirs[dir := Without(dirs[dir], {name})];
    }
  }

  /** The listing without the subdirectories of these names. */
  function Without(listing: seq<Entry>, names: set<string>): (r: seq<Entry>)
    ensures forall e :: e in r <==> e in listing && !(e.isDir && e.name in names)
  {
    if listing == [] then []
    else
      (if listing[0].isDir && listing[0].name in names then [] else [listing[0]]) + Without(listing[1..], names)
  }

  lemma {:induction false} WithoutTwice(listing: seq<Entry>, a: set<string>, b: set<string>)
    ensures Without(Without(listing, a), b) == Without(listing, a + b)
  {
    if listing != [] {
      WithoutTwice(listing[1..], a, b);
      if !(listing[0].isDir && listing[0].name in a) {
        assert Without(listing, a)[1..] == Without(listing[1..], a);
      } else {
        assert Without(listing, a) == Without(listing[1..], a);
      }
    }
  }

  predicate IsKeyName(name: string) {
    |name| == 32 && Hex.AllLowerHex(name)
  }

  method IsStorageKeyDir(name: string) returns (r: bool)
    ensures r == IsKeyName(name)
    ensures r <==> |name| == 32 && forall i :: 0 <= i < |name| ==> '0' <= name[i] <= '9' || 'a' <= name[i] <= 'f'
  {
    if |name| != 32 {
      return false;
    }
    for i := 0 to |name|
      invariant forall k :: 0 <= k < i ==> Hex.IsLowerHex(name[k])
    {
      var c := name[i];
      if (c < '0' || c > '9') && (c < 'a' || c > 'f') {
        return false;
      }
    }
    return true;
  }

  /** Every derived storage key names a directory that the scans recognize. */
  lemma DerivedKeysAreRecognized(cacheKey: string, sha256: string -> Magnet.Digest32)
    ensures IsKeyName(Magnet.StorageKeyFromCacheKey(cacheKey, sha256))
  {
  }

  function KeysIn(listing: seq<Entry>): set<string> {
    set e | e in listing && e.isDir && IsKeyName(e.name) :: e.name
  }

  /** The storage keys that have a directory in one of `paths`. */
  function DiskKeys(dirs: Dirs, paths: seq<string>): set<string> {
    set p, k | p in paths && p in dirs && k in KeysIn(dirs[p]) :: k
  }

  method ScanStorageKeys(fs: FileSystem, paths: seq<string>) returns (keys: seq<string>)
    ensures Distinct(keys) && ToSet(keys) == DiskKeys(fs.dirs, paths)
  {
    var seen: map<string, bool> := map[];
    for i := 0 to |paths|
      invariant seen.Keys == DiskKeys(fs.dirs, paths[..i])
    {
      assert paths[..i + 1] == paths[..i] + [paths[i]];
      if paths[i] in fs.dirs {
        var entries := fs.dirs[paths[i]];
        for j := 0 to |entries|
          invariant seen.Keys == DiskKeys(fs.dirs, paths[..i]) + KeysIn(entries[..j])
        {
          assert entries[..j + 1] == entries[..j] + [entries[j]];
          var isKey := IsStorageKeyDir(entries[j].name);
          if entries[j].isDir && isKey {
            seen := seen[entries[j].name := true];
          }
        }
        assert entries[..|entries|] == entries;
        assert DiskKeys(fs.dirs, paths[..i + 1]) == DiskKeys(fs.dirs, paths[..i]) + KeysIn(entries);
      } else {
        assert DiskKeys(fs.dirs, paths[..i + 1]) == DiskKeys(fs.dirs, paths[..i]);
      }
    }
    assert paths[..|paths|] == paths;
    keys := [];
    var rest := seen.Keys;
    while rest != {}
      invariant Distinct(keys) && ToSet(keys) + rest == seen.Keys && ToSet(keys) !! rest
      decreases rest
    {
      var k :| k in rest;
      assert ToSet(keys + [k]) == ToSet(keys) + {k};
      assert k !in ToSet(keys);
      keys, rest := keys + [k], rest - {k};
    }
    assert ToSet(keys) + rest == ToSet(keys);
  }

  /** The key directories of `paths` that are not valid are gone, everything else is as before. */
  function Cleaned(dirs: Dirs, paths: seq<string>, valid: set<string>): Dirs {
    map p | p in dirs :: if p in paths then Without(dirs[p], KeysIn(dirs[p]) - valid) else dirs[p]
  }

  method RemoveOrphanedDirs(fs: FileSystem, paths: seq<string>, validKeys: set<string>)
    modifies fs
    ensures fs.dirs == Cleaned(old(fs.dirs), paths, validKeys)
  {
    hide Without, KeysIn, Cleaned;
    ghost var before := fs.dirs;
    CleanedNowhere(before, validKeys);
    assert paths[..0] == [];
    for i := 0 to |paths|
      invariant fs.dirs == Cleaned(before, paths[..i], validKeys) && fs.dirs.Keys == before.Keys
    {
      assert paths[..i + 1] == paths[..i] + [paths[i]];
      var p := paths[i];
      if p in fs.dirs {
        RemoveOrphans(fs, p, validKeys);
        CleanedOnce(before, paths[..i], p, validKeys);
      } else {
        CleanedUnreadable(before, paths[..i], p, validKeys);
      }
    }
    assert paths[..|paths|] == paths;
  }

  method RemoveOrphans(fs: FileSystem, p: string, validKeys: set<string>)
    requires p in fs.dirs
    modifies fs
    ensures fs.dirs == old(fs.dirs)[p := Without(old(fs.dirs)[p], KeysIn(old(fs.dirs)[p]) - validKeys)]
  {
    hide Without, KeysIn;
    var entries := fs.dirs[p];
    ghost var start := fs.dirs;
    WithoutNothing(entries);
    ghost var orphans: set<string> := {};
    assert entries[..0] == [] && start[p := entries] == start;
    for j := 0 to |entries|
      invariant orphans == KeysIn(entries[..j]) - validKeys
      invariant fs.dirs == start[p := Without(entries, orphans)]
    {
      var name := entries[j].name;
      NextKey(entries, j);
      var isKey := IsStorageKeyDir(name);
      if !entries[j].isDir || !isKey {
        continue;
      }
      if name in validKeys {
        assert KeysIn(entries[..j + 1]) - validKeys == orphans;
        continue;
      }
      assert KeysIn(entries[..j + 1]) - validKeys == orphans + {name};
      WithoutTwice(entries, orphans, {name});
      fs.RemoveAll(p, name);
      orphans := orphans + {name};
    }
    assert entries[..|entries|] == entries;
  }

  lemma NextKey(entries: seq<Entry>, j: nat)
    requires j < |entries|
    ensures KeysIn(entries[..j + 1])
         == KeysIn(entries[..j]) + if entries[j].isDir && IsKeyName(entries[j].name) then {entries[j].name} else {}
  {
    assert entries[..j + 1] == entries[..j] + [entries[j]];
  }

  lemma CleanedUnreadable(dirs: Dirs, paths: seq<string>, p: string, valid: set<string>)
    requires p !in dirs
    ensures Cleaned(dirs, paths + [p], valid) == Cleaned(dirs, paths, valid)
  {
    hide Without, KeysIn;
  }

  lemma WithoutNothing(listing: seq<Entry>)
    ensures Without(listing, {}) == listing
    ensures KeysIn([]) == {}
  {
  }

  lemma CleanedNowhere(dirs: Dirs, valid: set<string>)
    ensures Cleaned(dirs, [], valid) == dirs
  {
  }

  /** Cleaning one more path, which may have been cleaned before. */
  lemma CleanedOnce(dirs: Dirs, paths: seq<string>, p: string, valid: set<string>)
    requires p in dirs
    ensures var start := Cleaned(dirs, paths, valid);
            start[p := Without(start[p], KeysIn(start[p]) - valid)] == Cleaned(dirs, paths + [p], valid)
  {
    var start := Cleaned(dirs, paths, valid);
    var orphans := KeysIn(dirs[p]) - valid;
    WithoutTwice(dirs[p], orphans, KeysIn(Without(dirs[p], orphans)) - valid);
    assert KeysIn(Without(dirs[p], orphans)) - valid <= orphans;
    assert orphans + (KeysIn(Without(dirs[p], orphans)) - valid) == orphans;
  }

  lemma CleanedPath(listing: seq<Entry>, valid: set<string>)
    ensures KeysIn(Without(listing, KeysIn(listing) - valid)) == KeysIn(listing) * valid
  {
    var orphans := KeysIn(listing) - valid;
    assert KeysIn(Without(listing, orphans)) == KeysIn(listing) - orphans;
  }

  lemma CleanedKeys(dirs: Dirs, paths: seq<string>, valid: set<string>)
    ensures DiskKeys(Cleaned(dirs, paths, valid), paths) == DiskKeys(dirs, paths) * valid
  {
    hide Without, KeysIn;
    var cleaned := Cleaned(dirs, paths, valid);
    forall p | p in paths && p in dirs ensures p in cleaned && KeysIn(cleaned[p]) == KeysIn(dirs[p]) * valid {
      CleanedPath(dirs[p], valid);
    }
    forall k | k in DiskKeys(dirs, paths) * valid ensures k in DiskKeys(cleaned, paths) {
      var p :| p in paths && p in dirs && k in KeysIn(dirs[p]);
      assert k in KeysIn(cleaned[p]);
    }
    forall k | k in DiskKeys(cleaned, paths) ensures k in DiskKeys(dirs, paths) * valid {
      var p :| p in paths && p in cleaned && k in KeysIn(cleaned[p]);
      assert k in KeysIn(dirs[p]);
    }
  }

  // ---------- Reconciliation ----------

  function Reconciled(jobs: Jobs, n: NodeId, disk: set<string>): Jobs {
    Apply(FailNodeInactiveJobsMissingKeys(n), Apply(RestoreNodeInactiveJobsWithKeys(n, disk), jobs))
  }

  function InactiveOf(jobs: Jobs, n: NodeId): set<JobId> {
    set id | id in jobs && Assigned(jobs[id], n) && jobs[id].status == Inactive
  }

  /** ListStorageKeysByNode: the keys of the node's jobs that are not failed. */
  function ValidKeys(jobs: Jobs, n: NodeId): set<string> {
    set id | id in jobs && Assigned(jobs[id], n) && jobs[id].status != Failed :: jobs[id].storageKey
  }

  datatype ReconcileResult = ReconcileResult(validKeys: set<string>, restored: nat, failed: nat)

  lemma ReconciledRow(jobs: Jobs, n: NodeId, disk: set<string>, id: JobId)
    requires id in jobs
    ensures var j := jobs[id];
            Reconciled(jobs, n, disk)[id]
            == if !(Assigned(j, n) && j.status == Inactive) then j
               else if j.storageKey in disk then j.(status := Completed)
               else j.(status := Failed, errorMessage := Some("files not found on node after restart"), fileLocation := None)
  {
  }

  function Restored(jobs: Jobs, n: NodeId, disk: set<string>): set<JobId> {
    set id | id in InactiveOf(jobs, n) && jobs[id].storageKey in disk
  }

  function Missing(jobs: Jobs, n: NodeId, disk: set<string>): set<JobId> {
    set id | id in InactiveOf(jobs, n) && jobs[id].storageKey !in disk
  }

  lemma RestoredRow(jobs: Jobs, n: NodeId, disk: set<string>, id: JobId)
    requires id in jobs
    ensures var r := Apply(RestoreNodeInactiveJobsWithKeys(n, disk), jobs);
            && (id in Restored(jobs, n, disk) <==> r[id] != jobs[id])
            && (id in Missing(jobs, n, disk) <==> Apply(FailNodeInactiveJobsMissingKeys(n), r)[id] != r[id])
  {
  }

  /** Changes the rows and counts those that changed. */
  method ReconcileNodeOnStartup(db: Database, n: NodeId, diskKeys: seq<string>) returns (r: ReconcileResult)
    modifies db`jobs
    ensures db.View() == Run(old(db.View()), Events.Reconciliation(n, ToSet(diskKeys)))
    ensures db.jobs == Reconciled(old(db.jobs), n, ToSet(diskKeys))
    ensures r.restored == |Restored(old(db.jobs), n, ToSet(diskKeys))|
    ensures r.failed == |Missing(old(db.jobs), n, ToSet(diskKeys))|
    ensures r.validKeys == ValidKeys(db.jobs, n)
  {
    hide Apply, Next, Restored, Missing;
    ghost var s, jobs := db.View(), db.jobs;
    var keys := set k | k in diskKeys;
    assert keys == ToSet(diskKeys);
    var restored := db.UpdateRows(RestoreNodeInactiveJobsWithKeys(n, keys));
    ghost var middle := db.jobs;
    var failed := db.UpdateRows(FailNodeInactiveJobsMissingKeys(n));
    forall id | id in jobs
      ensures id in Restored(jobs, n, keys) <==> id in restored
      ensures id in Missing(jobs, n, keys) <==> id in failed
    {
      RestoredRow(jobs, n, keys, id);
    }
    OnlyRows(jobs, n, keys);
    assert restored == Restored(jobs, n, keys);
    assert failed == Missing(jobs, n, keys);
    var valid := ValidKeys(db.jobs, n);
    r := ReconcileResult(valid, |restored|, |failed|);
    RunTwo(s, UpdateJobs(RestoreNodeInactiveJobsWithKeys(n, keys)), UpdateJobs(FailNodeInactiveJobsMissingKeys(n)));
  }

  lemma OnlyRows(jobs: Jobs, n: NodeId, disk: set<string>)
    ensures Restored(jobs, n, disk) <= jobs.Keys && Missing(jobs, n, disk) <= jobs.Keys
  {
  }

  /** Every inactive job of the node is either restored or failed. */
  lemma CountsAddUp(jobs: Jobs, n: NodeId, disk: set<string>)
    ensures |Restored(jobs, n, disk)| + |Missing(jobs, n, disk)| == |InactiveOf(jobs, n)|
  {
    assert Restored(jobs, n, disk) !! Missing(jobs, n, disk);
    assert Restored(jobs, n, disk) + Missing(jobs, n, disk) == InactiveOf(jobs, n);
  }

  /** A second reconciliation, against any disk, changes nothing. */
  lemma ReconcileIsFinal(jobs: Jobs, n: NodeId, disk: set<string>, again: set<string>)
    ensures Reconciled(Reconciled(jobs, n, disk), n, again) == Reconciled(jobs, n, disk)
    ensures InactiveOf(Reconciled(jobs, n, disk), n) == {}
  {
    hide Reconciled;
    var r := Reconciled(jobs, n, disk);
    ReconciledKeys(jobs, n, disk);
    ReconciledKeys(r, n, again);
    forall id | id in jobs ensures Reconciled(r, n, again)[id] == r[id] && id !in InactiveOf(r, n) {
      ReconciledRow(jobs, n, disk, id);
      ReconciledRow(r, n, again, id);
    }
  }

  lemma ReconciledKeys(jobs: Jobs, n: NodeId, disk: set<string>)
    ensures Reconciled(jobs, n, disk).Keys == jobs.Keys
  {
  }

  // ---------- Start-up ----------

  /** What start-up makes of the rows: the node's jobs are completed, with files on disk, or failed. */
  lemma AfterStartup(jobs: Jobs, n: NodeId, disk: set<string>, id: JobId)
    requires RowsOk(jobs) && id in jobs
    ensures var j, k := jobs[id], Reconciled(TakeOffline(jobs, n), n, disk)[id];
            && (!Assigned(j, n) ==> k == j)
            && (Assigned(j, n) ==>
                  && Assigned(k, n) && k.storageKey == j.storageKey
                  && (k.status == Completed || k.status == Failed)
                  && (k.status == Completed <==> (j.status == Completed || j.status == Inactive) && j.storageKey in disk))
  {
    hide Reconciled, TakeOffline, RowsOk;
    assert RowOk(jobs[id]) by { RowIsOk(jobs, id); }
    OfflineRow(jobs, n, id);
    ReconciledRow(TakeOffline(jobs, n), n, disk, id);
  }

  lemma RowIsOk(jobs: Jobs, id: JobId)
    requires RowsOk(jobs) && id in jobs
    ensures RowOk(jobs[id])
  {
  }

  lemma OfflineRow(jobs: Jobs, n: NodeId, id: JobId)
    requires id in jobs
    ensures id in TakeOffline(jobs, n)
    ensures var j, k := jobs[id], TakeOffline(jobs, n)[id];
            && k.nodeId == j.nodeId && k.storageKey == j.storageKey
            && k.status == (if Assigned(j, n) && Running(j) then Failed
                            else if Assigned(j, n) && j.status == Completed && Local(j) then Inactive else j.status)
            && (!Assigned(j, n) ==> k == j)
  {
  }

  lemma StartupValidKeys(jobs: Jobs, n: NodeId, disk: set<string>)
    requires RowsOk(jobs)
    ensures ValidKeys(Reconciled(TakeOffline(jobs, n), n, disk), n) <= disk
  {
    hide RowsOk, Reconciled, TakeOffline;
    ReconciledKeys(TakeOffline(jobs, n), n, disk);
    assert TakeOffline(jobs, n).Keys == jobs.Keys by { OfflineKeys(jobs, n); }
    forall id | id in jobs
      ensures var k := Reconciled(TakeOffline(jobs, n), n, disk)[id];
              Assigned(k, n) && k.status != Failed ==> k.storageKey in disk
    {
      AfterStartup(jobs, n, disk, id);
    }
  }

  lemma OfflineKeys(jobs: Jobs, n: NodeId)
    ensures TakeOffline(jobs, n).Keys == jobs.Keys
  {
  }

  /**
   The controller's start-up on its own node. Afterwards table and disk agree exactly: the key
   directories that remain are those of the node's jobs that are not failed, all of them completed.
   */
  method StartNode(db: Database, fs: FileSystem, n: NodeId, paths: seq<string>) returns (r: ReconcileResult)
    requires Inv(db.View())
    modifies db`jobs, fs
    ensures Inv(db.View())
    ensures db.View() == Run(old(db.View()),
              Events.JobsOffline(n) + Events.Reconciliation(n, DiskKeys(old(fs.dirs), paths)))
    ensures fs.dirs == Cleaned(old(fs.dirs), paths, ValidKeys(db.jobs, n))
    ensures DiskKeys(fs.dirs, paths) == ValidKeys(db.jobs, n)
    ensures forall id :: id in old(db.jobs) ==>
              && id in db.jobs
              && var j, k := old(db.jobs)[id], db.jobs[id];
                 if Assigned(j, n)
                 then k.status == (if (j.status == Completed || j.status == Inactive)
                                      && j.storageKey in DiskKeys(old(fs.dirs), paths) then Completed else Failed)
                 else k == j
    ensures r.restored + r.failed == |InactiveOf(TakeOffline(old(db.jobs), n), n)|
  {
    hide TakeOffline, Reconciled, Next, Inv, RowsOk, Restored, Missing, Cleaned;
    ghost var s, jobs := db.View(), db.jobs;
    Controller.MarkNodeJobsForOffline(db, n);
    OfflineIsRun(s, n);
    var diskKeys := ScanStorageKeys(fs, paths);
    ghost var disk := DiskKeys(fs.dirs, paths);
    r := ReconcileNodeOnStartup(db, n, diskKeys);
    CountsAddUp(TakeOffline(jobs, n), n, disk);
    RowsOfInv(s);
    StartupValidKeys(jobs, n, disk);
    forall id | id in jobs
      ensures id in db.jobs
      ensures var j, k := jobs[id], db.jobs[id];
              if Assigned(j, n)
              then k.status == (if (j.status == Completed || j.status == Inactive) && j.storageKey in disk
                                then Completed else Failed)
              else k == j
    {
      OfflineKeys(jobs, n);
      ReconciledKeys(TakeOffline(jobs, n), n, disk);
      AfterStartup(jobs, n, disk, id);
    }
    CleanedKeys(fs.dirs, paths, r.validKeys);
    RemoveOrphanedDirs(fs, paths, r.validKeys);
    var actions := Events.JobsOffline(n) + Events.Reconciliation(n, disk);
    RunConcat(s, Events.JobsOffline(n), Events.Reconciliation(n, disk));
    Events.HarmlessAllowed(s, actions);
    RunKeepsInv(s, actions);
  }

  lemma RowsOfInv(s: Db)
    requires Inv(s)
    ensures RowsOk(s.jobs)
  {
  }

  lemma OfflineIsRun(s: Db, n: NodeId)
    ensures Run(s, Events.JobsOffline(n)) == s.(jobs := TakeOffline(s.jobs, n))
  {
    hide Apply, Next;
    var a, b := MarkNodeActiveJobsFailed(n), MarkNodeCompletedJobsInactive(n);
    RunTwo(s, UpdateJobs(a), UpdateJobs(b));
    NextUpdate(s, a);
    NextUpdate(s.(jobs := Apply(a, s.jobs)), b);
  }

  /**
   A worker's reconciliation on reconnect (no job was taken offline before): the directories that
   remain are those on disk whose key is still valid; a completed job may still lack its directory.
   Without an answer the worker only asks for the valid keys, and without these it removes nothing.
   */
  method ReconcileNode(db: Database, fs: FileSystem, n: NodeId, paths: seq<string>, answered: bool, listed: bool)
    modifies db`jobs, fs
    ensures db.View() == if answered then Events.After(old(db.View()), Events.ReconcileNode(n, DiskKeys(old(fs.dirs), paths)))
                         else old(db.View())
    ensures fs.dirs == if answered || listed then Cleaned(old(fs.dirs), paths, ValidKeys(db.jobs, n)) else old(fs.dirs)
    ensures answered || listed ==>
              DiskKeys(fs.dirs, paths) == DiskKeys(old(fs.dirs), paths) * ValidKeys(db.jobs, n)
    ensures answered ==> InactiveOf(db.jobs, n) == {}
  {
    if answered {
      var _ := ReconcileWorker(db, fs, n, paths);
    } else if listed {
      var validKeys := ValidKeys(db.jobs, n);
      CleanedKeys(fs.dirs, paths, validKeys);
      RemoveOrphanedDirs(fs, paths, validKeys);
    }
  }

  method ReconcileWorker(db: Database, fs: FileSystem, n: NodeId, paths: seq<string>) returns (r: ReconcileResult)
    modifies db`jobs, fs
    ensures db.View() == Events.After(old(db.View()), Events.ReconcileNode(n, DiskKeys(old(fs.dirs), paths)))
    ensures InactiveOf(db.jobs, n) == {}
    ensures fs.dirs == Cleaned(old(fs.dirs), paths, ValidKeys(db.jobs, n))
    ensures DiskKeys(fs.dirs, paths) == DiskKeys(old(fs.dirs), paths) * ValidKeys(db.jobs, n)
  {
    hide Reconciled, Next;
    var diskKeys := ScanStorageKeys(fs, paths);
    ghost var jobs := db.jobs;
    r := ReconcileNodeOnStartup(db, n, diskKeys);
    ReconcileIsFinal(jobs, n, ToSet(diskKeys), {});
    CleanedKeys(fs.dirs, paths, r.validKeys);
    RemoveOrphanedDirs(fs, paths, r.validKeys);
  }
}
