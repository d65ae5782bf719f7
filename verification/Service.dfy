/**
 The download service (internal/core/service/download.go), step by step over the database: Add, Delete,
 DeleteUser, the fallback for stale jobs, and where ListFiles looks. Calls to nodes and to remote
 storage are returned as a list of effects.
 */
module Service {
  import opened Wrappers
  import opened Reports
  import opened Tables
  import opened Protocol
  import opened Histories
  import opened DownloadSteps
  import Events
  import opened Database
  import opened Effects

  datatype LookupError = DownloadNotFound | NoNode | NodeNotAvailable

  class DownloadService {
    const db: Database
    var clients: set<NodeId>  // the connected nodes

    constructor (db: Database)
      ensures this.db == db && clients == {}
    {
      this.db, clients := db, {};
    }

    method GetJobByStorageKey(key: string) returns (r: Option<JobId>)
      ensures IsJobOf(db.jobs, key, r)
    {
      if id :| id in db.jobs && db.jobs[id].storageKey == key {
        r := Some(id);
      } else {
        r := None;
      }
    }

    method FindDownload(user: UserId, job: JobId) returns (r: Option<DownloadId>)
      ensures IsDownloadOf(db.downloads, user, job, r)
    {
      if d :| d in db.downloads && db.downloads[d] == Download(user, job) {
        r := Some(d);
      } else {
        r := None;
      }
    }

    /** Steps 6 and 7 of Add: send the job to the node and record the answer. */
    method Dispatch(id: JobId, download: DownloadId, n: NodeId, answer: Dispatch)
      returns (r: Result<Added, AddError>)
      modifies db
      ensures var a := Dispatched([], id, download, n, answer);
              r == a.answer && db.View() == Run(old(db.View()), a.actions)
    {
      ghost var s := db.View();
      match answer {
        case Refused(error) =>
          var message := if error == "" then "node rejected job" else error;
          var _ := db.UpdateRows(UpdateJobStatus(id, Failed, "", message, ""));
          r := Err(DispatchRefused);
        case Accepted(gid, location) =>
          var _ := db.UpdateRows(UpdateJobStatus(id, Active, gid, "", location));
          r := Ok(Added(download, id, false, Some(n), Active));
      }
      RunThen(s, [], Dispatched([], id, download, n, answer).actions[0]);
    }

    method Add(req: Request, c: Circumstances) returns (r: Result<Added, AddError>, dispatched: bool, ghost a: Adding)
      modifies db
      ensures IsAdd(old(db.View()), req, c, a)
      ensures r == a.answer && dispatched == a.dispatched && db.View() == Run(old(db.View()), a.actions)
    {
      hide Next, Admissible, Run;
      ghost var s := db.View();
      assert Run(s, []) == s by { RunNothing(s); }
      dispatched := false;
      var existing := GetJobByStorageKey(req.storageKey);
      if existing.Some? {
        var id := existing.value;
        var j := db.jobs[id];
        if j.status == Completed || j.status == Active || j.status == Queued {
          var mine := FindDownload(req.user, id);
          a := AddWith(s, req, c, existing, mine);
          if mine.Some? {
            r := Ok(Added(mine.value, id, j.status == Completed, j.nodeId, j.status));
            return;
          }
          var linked := db.Execute(CreateDownload(c.newDownload, req.user, id));
          RunOne(s, CreateDownload(c.newDownload, req.user, id));
          r := if linked then Ok(Added(c.newDownload, id, j.status == Completed, j.nodeId, j.status))
               else Err(CannotAttach);
          return;
        }
      }
      ghost var mine := GhostDownload(s, req.user, existing);
      a := AddWith(s, req, c, existing, mine);
      if c.selected.None? {
        r := Err(AddError.NoNode);
        return;
      }
      if !c.connected {
        r := Err(NotConnected);
        return;
      }
      var n := c.selected.value;
      var id, download;
      var reset := false;
      if existing.Some? {
        reset := db.Execute(UpdateJobs(ResetJob(existing.value, n, req.url)));
      }
      if reset {
        id := existing.value;
        ResetKeepsDownloads(s, id, n, req.url, c.newDownload, req.user);
        var linked := db.Execute(CreateDownload(c.newDownload, req.user, id));
        RunTwo(s, UpdateJobs(ResetJob(id, n, req.url)), CreateDownload(c.newDownload, req.user, id));
        download := c.newDownload;
        if !linked {
          SkippedKeepsDownloads(s, id, n, req.url, CreateDownload(c.newDownload, req.user, id));
          var found := FindDownload(req.user, id);
          if found.None? {
            r := Err(CannotLink);
            return;
          }
          download := found.value;
          a := AddWith(s, req, c, existing, found);
        }
      } else {
        if existing.Some? {
          ResetRefused(s, existing.value, n, req.url);
        }
        id, download := c.newJob, c.newDownload;
        var create := CreateJob(id, NewJob(n, req.engine, req.url, req.storageKey, req.name), download, req.user);
        var created := db.Execute(create);
        RunOne(s, create);
        if !created {
          r := Err(CannotCreate);
          return;
        }
      }
      r := Dispatch(id, download, n, c.dispatch);
      dispatched := true;
      ghost var start := a.actions[..|a.actions| - 1];
      RunConcat(s, start, Dispatched([], id, download, n, c.dispatch).actions);
      assert a.actions == start + Dispatched([], id, download, n, c.dispatch).actions;
    }

    /** Deletes the user's download, and the job with it when no one else has it. */
    method Delete(d: DownloadId, user: UserId) returns (ok: bool, effects: seq<Effect>)
      requires Inv(db.View())
      modifies db
      ensures ok <==> d in old(db.downloads) && old(db.downloads)[d].userId == user
      ensures !ok ==> db.View() == old(db.View()) && effects == []
      ensures ok ==> db.View() == Events.After(old(db.View()), Events.Delete(d)) == Collected(old(db.View()), {d})
      ensures ok ==> var id := old(db.downloads)[d].jobId;
                     id in old(db.jobs)
                     && effects == if id in db.jobs then [] else CleanUp(id, old(db.jobs)[id], clients)
      ensures ok ==> var id, jobs := old(db.downloads)[d].jobId, old(db.jobs);
                     if id in db.jobs then effects == [] else CleansUp(effects, jobs, {id}, clients)
    {
      hide Inv, Next, Collected, CleanUp, Events.After, Admissible, CleansUp;
      effects := [];
      if d !in db.downloads || db.downloads[d].userId != user {
        return false, [];
      }
      ok := true;
      ghost var s := db.View();
      var id := db.downloads[d].jobId;
      DownloadHasJob(s, d);
      var row := db.jobs[id];
      var count := |set e | e in db.downloads && db.downloads[e].jobId == id|;
      assert DownloadsOf(s, id) == set e | e in s.downloads && s.downloads[e].jobId == id;
      DeleteIsOneStep(s, d);
      if count <= 1 {
        var _ := db.Execute(DeleteJob(id));
        effects := CleanUp(id, row, clients);
        OneCleanedUp(id, s.jobs, clients);
        return;
      }
      var _ := db.Execute(DeleteDownload(d));
    }

    /** The user's downloads, in some order, with the number of downloads of each one's job. */
    method ListUserJobs(user: UserId) returns (rows: seq<(DownloadId, JobId, nat)>)
      ensures Distinct(Ids(rows)) && ToSet(Ids(rows)) == DownloadsBy(db.View(), user)
      ensures forall i :: 0 <= i < |rows| ==>
                && rows[i].0 in db.downloads && rows[i].1 == db.downloads[rows[i].0].jobId
                && rows[i].2 == |DownloadsOf(db.View(), rows[i].1)|
    {
      rows := [];
      var rest := set d | d in db.downloads && db.downloads[d].userId == user;
      assert rest == DownloadsBy(db.View(), user);
      while rest != {}
        invariant Distinct(Ids(rows))
        invariant ToSet(Ids(rows)) + rest == DownloadsBy(db.View(), user) && ToSet(Ids(rows)) !! rest
        invariant forall i :: 0 <= i < |rows| ==>
          && rows[i].0 in db.downloads && rows[i].1 == db.downloads[rows[i].0].jobId
          && rows[i].2 == |DownloadsOf(db.View(), rows[i].1)|
        decreases rest
      {
        var d :| d in rest;
        var id := db.downloads[d].jobId;
        var all := set e | e in db.downloads && db.downloads[e].jobId == id;
        assert all == DownloadsOf(db.View(), id);
        ghost var ids := Ids(rows);
        assert ToSet(ids + [d]) == ToSet(ids) + {d};
        assert d !in ToSet(ids);
        rows := rows + [(d, id, |all|)];
        assert Ids(rows) == ids + [d];
        rest := rest - {d};
      }
      assert ToSet(Ids(rows)) == ToSet(Ids(rows)) + rest;
    }

    /** Deletes the user with all downloads; the counts are read once, before the loop. */
    method DeleteUser(user: UserId) returns (effects: seq<Effect>)
      requires Inv(db.View())
      modifies db
      ensures Inv(db.View())
      ensures db.users == old(db.users) - {user}
      ensures db.downloads == map d | d in old(db.downloads) && old(db.downloads)[d].userId != user :: old(db.downloads)[d]
      ensures forall id :: id in old(db.jobs) ==>
                (id in db.jobs <==> exists d :: d in db.downloads && db.downloads[d].jobId == id)
      ensures forall id :: id in db.jobs ==> id in old(db.jobs) && db.jobs[id] == old(db.jobs)[id]
      ensures forall e :: e in effects <==>
                exists id :: id in old(db.jobs) && id !in db.jobs && e in CleanUp(id, old(db.jobs)[id], clients)
      ensures CleansUp(effects, old(db.jobs), old(db.jobs).Keys - db.jobs.Keys, clients)
    {
      hide Inv, Next, Collected, CleanUp, Distinct, Run, CancelsFirst, CleansUp, CallsFor;
      ghost var s := db.View();
      assert Run(s, []) == s by { RunNothing(s); }
      var rows := ListUserJobs(user);
      ghost var ids := Ids(rows);
      DeleteUserCollects(s, user, ids);
      effects := [];
      assert CancelsFirst(effects) && CallsFor(effects, s, rows, 0, clients) by { NoCallsYet(s, rows, clients); }
      for i := 0 to |rows|
        invariant CancelsFirst(effects)
        invariant db.View() == Run(s, DeleteActions(s, ids[..i]))
        invariant CallsFor(effects, s, rows, i, clients)
      {
        DeletionStep(s, user, ids, i);
        var (d, id, count) := rows[i];
        if count <= 1 {
          var row := db.jobs[id];
          var _ := db.Execute(DeleteJob(id));
          OneMoreCall(s, user, ids, rows, i, effects, clients);
          effects := effects + CleanUp(id, row, clients);
        } else {
          NoMoreCalls(effects, s, rows, i, clients);
          var _ := db.Execute(DeleteDownload(d));
        }
      }
      assert ids[..|ids|] == ids;
      RunThen(s, DeleteActions(s, ids), Action.DeleteUser(user));
      var _ := db.Execute(Action.DeleteUser(user));
      UserGone(s, user, db.View());
      forall id | id in s.jobs && id !in db.jobs
        ensures exists k :: 0 <= k < |rows| && rows[k].2 <= 1 && rows[k].1 == id
      {
        var d := SoleDownload(s, user, id);
        assert d in ToSet(ids);
      }
      forall k | 0 <= k < |rows| && rows[k].2 <= 1 ensures rows[k].1 in s.jobs && rows[k].1 !in db.jobs {
        assert ids[k] in ToSet(ids);
        SoleIsNotKept(s, user, ids[k]);
      }
      assert forall e :: e in effects <==>
        exists id :: id in s.jobs && id !in db.jobs && e in CleanUp(id, s.jobs[id], clients) by {
        CallsForDeleted(effects, s, rows, clients, s.jobs.Keys - db.jobs.Keys);
      }
      AllCleanedUp(effects, s.jobs, s.jobs.Keys - db.jobs.Keys, clients);
    }

    /** Fails the jobs that sent no status for too long. */
    method ReconcileStaleJobs(oldRows: set<JobId>) returns (ghost ids: seq<JobId>)
      modifies db`jobs
      ensures Events.Possible(old(db.View()), Events.FailStale(ids))
      ensures ToSet(ids) == set id | id in old(db.jobs) && Running(old(db.jobs)[id]) && id in oldRows
      ensures db.View() == Events.After(old(db.View()), Events.FailStale(ids))
    {
      hide Next, ToSet;
      ghost var s := db.View();
      var stale := set id | id in db.jobs && Running(db.jobs[id]) && id in oldRows;
      ghost var all := stale;
      ids := [];
      assert Run(s, Events.FailAll(ids)) == s;
      NoMembers<JobId>();
      while stale != {}
        invariant db.View() == Run(s, Events.FailAll(ids))
        invariant ToSet(ids) + stale == all
        decreases stale
      {
        var id :| id in stale;
        var _ := db.UpdateRows(FailJob(id, "stale - no status updates"));
        FailOneMore(s, ids, id);
        OneMoreMember(ids, id);
        ids := ids + [id];
        stale := stale - {id};
      }
      Members(ids);
    }

    /** Where the files of the user's download are listed. */
    method ListFiles(d: DownloadId, user: UserId) returns (r: Result<FileSource, LookupError>)
      ensures r == Err(DownloadNotFound) <==>
                d !in db.downloads || db.downloads[d].userId != user || db.downloads[d].jobId !in db.jobs
      ensures r != Err(DownloadNotFound) ==>
                var source := SourceOf(db.jobs[db.downloads[d].jobId]);
                r == if source.NoNodeAssigned? then Err(LookupError.NoNode)
                     else if source.FromNode? && source.node !in clients then Err(NodeNotAvailable)
                     else Ok(source)
      ensures (Inv(db.View()) && d in db.downloads && db.jobs[db.downloads[d].jobId].status != Failed)
                ==> r != Err(LookupError.NoNode)
    {
      if d !in db.downloads || db.downloads[d].userId != user || db.downloads[d].jobId !in db.jobs {
        return Err(DownloadNotFound);
      }
      var j := db.jobs[db.downloads[d].jobId];
      if j.nodeId.None? && j.fileLocation.Some? && IsRemoteUri(j.fileLocation.value) {
        return Ok(FromStorage(j.fileLocation.value));
      }
      if j.nodeId.None? {
        return Err(LookupError.NoNode);
      }
      if j.nodeId.value !in clients {
        return Err(NodeNotAvailable);
      }
      return Ok(FromNode(j.nodeId.value));
    }
  }

  function Ids(rows: seq<(DownloadId, JobId, nat)>): (ids: seq<DownloadId>)
    ensures |ids| == |rows| && forall i :: 0 <= i < |rows| ==> ids[i] == rows[i].0
  {
    seq(|rows|, i requires 0 <= i < |rows| => rows[i].0)
  }

  // ---------- Facts the methods use ----------

  lemma FailOneMore(s: Db, ids: seq<JobId>, id: JobId)
    ensures Run(s, Events.FailAll(ids + [id]))
         == Next(Run(s, Events.FailAll(ids)), UpdateJobs(FailJob(id, "stale - no status updates")))
  {
    hide Next;
    RunThen(s, Events.FailAll(ids), UpdateJobs(FailJob(id, "stale - no status updates")));
    assert (ids + [id])[..|ids|] == ids;
  }

  lemma NoMembers<T>()
    ensures ToSet<T>([]) == {}
  {
  }

  lemma OneMoreMember<T>(xs: seq<T>, x: T)
    ensures ToSet(xs + [x]) == ToSet(xs) + {x}
  {
  }

  lemma Members<T>(xs: seq<T>)
    ensures forall x :: x in xs <==> x in ToSet(xs)
  {
  }

  lemma DeleteIsOneStep(s: Db, d: DownloadId)
    requires Inv(s) && d in s.downloads
    ensures Events.After(s, Events.Delete(d)) == Next(s, DeleteAction(s, d)) == Collected(s, {d})
    ensures var id := s.downloads[d].jobId;
            id in Next(s, DeleteAction(s, d)).jobs <==> id in s.jobs && DeleteAction(s, d) == DeleteDownload(d)
  {
    hide Collected, Inv, Next, DeleteAction;
    DeleteCollects(s, d);
    RunOne(s, DeleteAction(s, d));
    JobAfterDelete(s, d);
  }

  lemma JobAfterDelete(s: Db, d: DownloadId)
    requires d in s.downloads
    ensures var id := s.downloads[d].jobId;
            id in Next(s, DeleteAction(s, d)).jobs <==> id in s.jobs && DeleteAction(s, d) == DeleteDownload(d)
  {
    hide DropDownloads, DownloadsOf;
    assert forall gone :: DropDownloads(s, gone).jobs == s.jobs by { DropsKeepJobs(s); }
  }

  lemma DropsKeepJobs(s: Db)
    ensures forall gone :: DropDownloads(s, gone).jobs == s.jobs
  {
  }

  lemma GhostDownload(s: Db, user: UserId, job: Option<JobId>) returns (mine: Option<DownloadId>)
    ensures job.Some? ==> IsDownloadOf(s.downloads, user, job.value, mine)
  {
    if job.Some? && HasDownload(s.downloads, user, job.value) {
      var d :| d in s.downloads && s.downloads[d] == Download(user, job.value);
      mine := Some(d);
    } else {
      mine := None;
    }
  }

  lemma ResetKeepsDownloads(s: Db, id: JobId, n: NodeId, url: string, download: DownloadId, user: UserId)
    requires Admissible(s, UpdateJobs(ResetJob(id, n, url)))
    ensures var t := Next(s, UpdateJobs(ResetJob(id, n, url)));
            && n in s.nodes
            && t.downloads == s.downloads
            && (Admissible(t, CreateDownload(download, user, id)) <==> Admissible(s, CreateDownload(download, user, id)))
  {
  }

  lemma SkippedKeepsDownloads(s: Db, id: JobId, n: NodeId, url: string, link: Action)
    requires var t := Next(s, UpdateJobs(ResetJob(id, n, url))); link.CreateDownload? && !Admissible(t, link)
    ensures Next(Next(s, UpdateJobs(ResetJob(id, n, url))), link).downloads == s.downloads
  {
  }

  lemma ResetRefused(s: Db, id: JobId, n: NodeId, url: string)
    requires !Admissible(s, UpdateJobs(ResetJob(id, n, url)))
    ensures n !in s.nodes && Next(s, UpdateJobs(ResetJob(id, n, url))) == s
  {
  }

  lemma RowStays(s: Db, u: UserId, gone: set<DownloadId>, d: DownloadId)
    requires Inv(s) && gone <= DownloadsBy(s, u) && d in DownloadsBy(s, u) && d !in gone
    ensures var id := s.downloads[d].jobId;
            id in s.jobs && id in Collected(s, gone).jobs && Collected(s, gone).jobs[id] == s.jobs[id]
  {
    DownloadHasJob(s, d);
    assert Kept(s, s.downloads[d].jobId, gone);
  }

  lemma UserGone(s: Db, u: UserId, t: Db)
    requires t.downloads == map d | d in s.downloads && s.downloads[d].userId != u :: s.downloads[d]
    requires t.jobs == map id | id in s.jobs && Kept(s, id, DownloadsBy(s, u)) :: s.jobs[id]
    ensures forall id :: id in s.jobs ==> (id in t.jobs <==> exists d :: d in t.downloads && t.downloads[d].jobId == id)
  {
    forall id | id in s.jobs
      ensures Kept(s, id, DownloadsBy(s, u)) <==> exists d :: d in t.downloads && t.downloads[d].jobId == id
    {
      if Kept(s, id, DownloadsBy(s, u)) {
        var d :| d in s.downloads && d !in DownloadsBy(s, u) && s.downloads[d].jobId == id;
        assert d in t.downloads;
      }
    }
  }

  /** The loop's i-th statement, on the state before it: the row it looks at is still the original one. */
  lemma DeletionStep(s: Db, user: UserId, ids: seq<DownloadId>, i: nat)
    requires Inv(s) && Distinct(ids) && ToSet(ids) == DownloadsBy(s, user) && i < |ids|
    ensures forall d :: d in ids ==> d in s.downloads
    ensures var t := Run(s, DeleteActions(s, ids[..i]));
            && Run(s, DeleteActions(s, ids[..i + 1])) == Next(t, DeleteAction(s, ids[i]))
            && var id := s.downloads[ids[i]].jobId;
               id in s.jobs && id in t.jobs && t.jobs[id] == s.jobs[id]
  {
    hide Inv, Next, Collected, DeleteAction;
    assert forall d :: d in ids ==> d in ToSet(ids);
    var gone := ToSet(ids[..i]);
    assert gone <= DownloadsBy(s, user) && ids[i] !in gone by {
      assert forall d :: d in gone ==> d in ToSet(ids);
    }
    assert Distinct(ids[..i]);
    DeleteActionsCollect(s, user, ids[..i]);
    RowStays(s, user, gone, ids[i]);
    assert ids[..i + 1][..i] == ids[..i];
    RunThen(s, DeleteActions(s, ids[..i]), DeleteAction(s, ids[i]));
  }

  lemma SoleIsNotKept(s: Db, u: UserId, d: DownloadId)
    requires Inv(s) && d in DownloadsBy(s, u) && |DownloadsOf(s, s.downloads[d].jobId)| <= 1
    ensures s.downloads[d].jobId in s.jobs && !Kept(s, s.downloads[d].jobId, DownloadsBy(s, u))
  {
    DownloadHasJob(s, d);
    OnlyMember(DownloadsOf(s, s.downloads[d].jobId), d);
    assert forall e :: e in s.downloads && s.downloads[e].jobId == s.downloads[d].jobId ==>
      e in DownloadsOf(s, s.downloads[d].jobId);
  }

  /** The calls are those for the jobs deleted in the first n rounds. */
  ghost predicate CallsFor(effects: seq<Effect>, s: Db, rows: seq<(DownloadId, JobId, nat)>, n: nat, clients: set<NodeId>)
    requires n <= |rows|
  {
    forall e :: e in effects <==>
      exists k :: 0 <= k < n && rows[k].2 <= 1 && rows[k].1 in s.jobs && e in CleanUp(rows[k].1, s.jobs[rows[k].1], clients)
  }

  lemma NoCallsYet(s: Db, rows: seq<(DownloadId, JobId, nat)>, clients: set<NodeId>)
    ensures CancelsFirst([]) && CallsFor([], s, rows, 0, clients)
  {
  }

  lemma NoMoreCalls(effects: seq<Effect>, s: Db, rows: seq<(DownloadId, JobId, nat)>, n: nat, clients: set<NodeId>)
    requires n < |rows| && CallsFor(effects, s, rows, n, clients) && rows[n].2 > 1
    ensures CallsFor(effects, s, rows, n + 1, clients)
  {
    hide CleanUp;
  }

  lemma OneMoreCall(s: Db, user: UserId, ids: seq<DownloadId>, rows: seq<(DownloadId, JobId, nat)>, i: nat,
                    effects: seq<Effect>, clients: set<NodeId>)
    requires Inv(s) && Distinct(ids) && ToSet(ids) == DownloadsBy(s, user) && |ids| == |rows| && i < |rows|
    requires forall k :: 0 <= k < |rows| ==>
               && ids[k] in s.downloads && rows[k].1 == s.downloads[ids[k]].jobId
               && rows[k].2 == |DownloadsOf(s, rows[k].1)|
    requires CallsFor(effects, s, rows, i, clients) && CancelsFirst(effects)
    requires rows[i].2 <= 1 && rows[i].1 in s.jobs
    ensures var all := effects + CleanUp(rows[i].1, s.jobs[rows[i].1], clients);
            CallsFor(all, s, rows, i + 1, clients) && CancelsFirst(all)
  {
    hide Inv, CleanUp, CancelsFirst, Distinct;
    var id := rows[i].1;
    forall e | e in effects && !e.DeleteRemote? ensures e.ref.jobId != id {
      var k :| 0 <= k < i && rows[k].2 <= 1 && rows[k].1 in s.jobs && e in CleanUp(rows[k].1, s.jobs[rows[k].1], clients);
      SoleJobsDiffer(s, user, ids, k, i);
      CallNamesJob(rows[k].1, s.jobs[rows[k].1], clients, e);
    }
    OneMoreCleanUp(effects, id, s.jobs[id], clients);
    var all := effects + CleanUp(id, s.jobs[id], clients);
    assert forall e :: e in all <==> e in effects || e in CleanUp(id, s.jobs[id], clients);
  }

  lemma CallsForDeleted(effects: seq<Effect>, s: Db, rows: seq<(DownloadId, JobId, nat)>, clients: set<NodeId>,
                        deleted: set<JobId>)
    requires CallsFor(effects, s, rows, |rows|, clients) && deleted <= s.jobs.Keys
    requires forall id :: id in deleted ==> exists k :: 0 <= k < |rows| && rows[k].2 <= 1 && rows[k].1 == id
    requires forall k :: 0 <= k < |rows| && rows[k].2 <= 1 ==> rows[k].1 in deleted
    ensures forall e :: e in effects <==> exists id :: id in deleted && e in CleanUp(id, s.jobs[id], clients)
  {
    hide CleanUp;
  }

  lemma SoleJobsDiffer(s: Db, u: UserId, ids: seq<DownloadId>, i: nat, k: nat)
    requires Inv(s) && Distinct(ids) && ToSet(ids) == DownloadsBy(s, u) && i < |ids| && k < |ids| && i != k
    requires ids[i] in s.downloads && ids[k] in s.downloads && |DownloadsOf(s, s.downloads[ids[i]].jobId)| <= 1
    ensures s.downloads[ids[i]].jobId != s.downloads[ids[k]].jobId
  {
    hide Inv;
    OnlyMember(DownloadsOf(s, s.downloads[ids[i]].jobId), ids[i]);
    assert ids[k] != ids[i];
    assert ids[k] !in DownloadsOf(s, s.downloads[ids[i]].jobId);
  }

  lemma SoleDownload(s: Db, u: UserId, id: JobId) returns (d: DownloadId)
    requires Inv(s) && id in s.jobs && !Kept(s, id, DownloadsBy(s, u))
    ensures d in DownloadsBy(s, u) && s.downloads[d].jobId == id && |DownloadsOf(s, id)| <= 1
  {
    assert Kept(s, id, {});
    d :| d in s.downloads && s.downloads[d].jobId == id;
    assert d in DownloadsBy(s, u);
    forall e | e in DownloadsOf(s, id) ensures e == d {
      assert e in DownloadsBy(s, u);
      assert s.downloads[e] == s.downloads[d];
    }
    assert DownloadsOf(s, id) == {d};
  }
}
