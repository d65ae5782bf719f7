/**
 The database as the program uses it: an object whose tables the statements change in place
 (internal/database/gen, internal/database/nodeoffline.go).
 */
module Database {
  import opened Wrappers
  import opened Reports
  import opened Tables

  /** The unnested columns of the batch statements, row by row. */
  function ProgressRows(ids: seq<JobId>, progress: seq<real>, speed: seq<int>, downloaded: seq<int>,
                        names: seq<string>, sizes: seq<int>, engineJobIds: seq<string>): seq<StatusReport>
    requires |ids| == |progress| == |speed| == |downloaded| == |names| == |sizes| == |engineJobIds|
  {
    seq(|ids|, i requires 0 <= i < |ids| =>
      StatusReport(ids[i], engineJobIds[i], StateActive, progress[i], speed[i], sizes[i], downloaded[i], names[i], ""))
  }

  function CompletionRows(ids: seq<JobId>, engineJobIds: seq<string>, names: seq<string>, sizes: seq<int>)
    : seq<StatusReport>
    requires |ids| == |engineJobIds| == |names| == |sizes|
  {
    seq(|ids|, i requires 0 <= i < |ids| =>
      StatusReport(ids[i], engineJobIds[i], StateCompleted, 0.0, 0, sizes[i], 0, names[i], ""))
  }

  function FailureRows(ids: seq<JobId>, errors: seq<string>): seq<StatusReport>
    requires |ids| == |errors|
  {
    seq(|ids|, i requires 0 <= i < |ids| => StatusReport(ids[i], "", StateFailed, 0.0, 0, 0, 0, "", errors[i]))
  }

  /** rows[i] is the i-th unnested row; SQL uses one row for each ID. */
  ghost predicate Unnested(chosen: Chosen, rows: seq<StatusReport>) {
    && (forall i :: 0 <= i < |rows| ==> rows[i].jobId in chosen)
    && (forall id :: id in chosen ==> exists i :: 0 <= i < |rows| && chosen[id] == rows[i] && rows[i].jobId == id)
  }

  class Database {
    var users: set<UserId>
    var nodes: map<NodeId, Node>
    var jobs: Jobs
    var downloads: Downloads
    var links: Links

    ghost function View(): Db
      reads this
    {
      Db(users, nodes, jobs, downloads, links)
    }

    constructor ()
      ensures View() == EMPTY
    {
      users, nodes, jobs, downloads, links := {}, map[], map[], map[], map[];
    }

    /** Runs one statement; false when a constraint refuses it. */
    method Execute(a: Action) returns (ok: bool)
      modifies this
      ensures ok == Admissible(old(View()), a)
      ensures View() == Next(old(View()), a)
    {
      hide Exec, Apply, Rewritten, FreshRow, DownloadsOf, DownloadsBy, DropDownloads, KeyTaken, HasDownload;
      var view := Db(users, nodes, jobs, downloads, links);
      ok := Admissible(view, a);
      if !ok {
        return;
      }
      match a {
        case InsertUser(u) => users := users + {u};
        case UpsertNode(n, isController) =>
          nodes := nodes[n := Node(if n in nodes then nodes[n].isController else isController, true)];
        case SetNodeOnline(n, online) =>
          if n in nodes {
            nodes := nodes[n := nodes[n].(isOnline := online)];
          }
        case DeleteNode(n) =>
          nodes := nodes - {n};
          jobs := map id | id in jobs :: if Assigned(jobs[id], n) then jobs[id].(nodeId := None) else jobs[id];
        case CreateJob(id, row, download, user) =>
          jobs := jobs[id := FreshRow(row)];
          downloads := downloads[download := Download(user, id)];
        case CreateDownload(download, user, job) =>
          downloads := downloads[download := Download(user, job)];
        case DeleteDownload(download) =>
          Cascade({download});
        case DeleteJob(id) =>
          Cascade(DownloadsOf(view, id));
          jobs := jobs - {id};
        case DeleteUser(u) =>
          Cascade(DownloadsBy(view, u));
          links := map l | l in links && links[l].userId != u :: links[l];
          users := users - {u};
        case CreateLink(link, entry) => links := links[link := entry];
        case RewriteLinks(job, oldPrefix, newPrefix) =>
          links := map l | l in links ::
            if links[l].downloadId in downloads && downloads[links[l].downloadId].jobId == job
            then links[l].(storageUri := Rewritten(links[l].storageUri, oldPrefix, newPrefix)) else links[l];
        case UpdateJobs(u) => jobs := Apply(u, jobs);
      }
    }

    /** Deletes downloads with their links. */
    method Cascade(gone: set<DownloadId>)
      modifies `downloads, `links
      ensures View() == DropDownloads(old(View()), gone)
      ensures users == old(users) && nodes == old(nodes) && jobs == old(jobs)
    {
      downloads := downloads - gone;
      links := map l | l in links && links[l].downloadId !in gone :: links[l];
    }

    /** Runs an UPDATE on jobs and says which rows changed. */
    method UpdateRows(u: Update) returns (changed: set<JobId>)
      requires !u.ResetJob?
      modifies `jobs
      ensures View() == Next(old(View()), UpdateJobs(u))
      ensures jobs == Apply(u, old(jobs))
      ensures changed == set id | id in old(jobs) && jobs[id] != old(jobs)[id]
    {
      var after := Apply(u, jobs);
      changed := set id | id in jobs && after[id] != jobs[id];
      jobs := after;
    }

    method BatchUpdateJobProgress(ids: seq<JobId>, progress: seq<real>, speed: seq<int>, downloaded: seq<int>,
                                  names: seq<string>, sizes: seq<int>, engineJobIds: seq<string>)
      returns (ghost chosen: Chosen)
      requires |ids| == |progress| == |speed| == |downloaded| == |names| == |sizes| == |engineJobIds|
      modifies `jobs
      ensures Unnested(chosen, ProgressRows(ids, progress, speed, downloaded, names, sizes, engineJobIds))
      ensures jobs == Apply(Update.BatchUpdateJobProgress(chosen), old(jobs))
    {
      var picked := Join(ProgressRows(ids, progress, speed, downloaded, names, sizes, engineJobIds));
      chosen := picked;
      jobs := Apply(Update.BatchUpdateJobProgress(picked), jobs);
    }

    method BatchCompleteJobs(ids: seq<JobId>, engineJobIds: seq<string>, names: seq<string>, sizes: seq<int>,
                             uploadPending: bool)
      returns (ghost chosen: Chosen)
      requires |ids| == |engineJobIds| == |names| == |sizes|
      modifies `jobs
      ensures Unnested(chosen, CompletionRows(ids, engineJobIds, names, sizes))
      ensures jobs == Apply(Update.BatchCompleteJobs(chosen, uploadPending), old(jobs))
    {
      var picked := Join(CompletionRows(ids, engineJobIds, names, sizes));
      chosen := picked;
      jobs := Apply(Update.BatchCompleteJobs(picked, uploadPending), jobs);
    }

    /** Also returns the IDs of the rows it hit. */
    method BatchFailJobs(ids: seq<JobId>, errors: seq<string>) returns (hit: set<JobId>, ghost chosen: Chosen)
      requires |ids| == |errors|
      modifies `jobs
      ensures Unnested(chosen, FailureRows(ids, errors))
      ensures jobs == Apply(Update.BatchFailJobs(chosen), old(jobs))
      ensures hit == chosen.Keys * old(jobs).Keys
    {
      var picked := Join(FailureRows(ids, errors));
      chosen := picked;
      hit := picked.Keys * jobs.Keys;
      jobs := Apply(Update.BatchFailJobs(picked), jobs);
    }
  }

  /** The join of unnested rows with job IDs; of several rows for one ID it uses the last. */
  method Join(rows: seq<StatusReport>) returns (chosen: Chosen)
    ensures Unnested(chosen, rows)
  {
    chosen := map[];
    for i := 0 to |rows|
      invariant forall k :: 0 <= k < i ==> rows[k].jobId in chosen
      invariant forall id :: id in chosen ==> exists k :: 0 <= k < i && chosen[id] == rows[k] && rows[k].jobId == id
    {
      chosen := chosen[rows[i].jobId := rows[i]];
    }
  }
}
