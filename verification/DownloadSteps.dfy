/**
 Adding and deleting downloads (internal/core/service/download.go) as runs of statements, reference
 counting, and what repeated Adds return.
 */
module DownloadSteps {
  import opened Wrappers
  import opened Reports
  import opened Tables
  import opened Protocol
  import opened Histories

  // ---------- Add ----------

  /** A request with what is derived from it: the storage key of its content and a default name. */
  datatype Request = Request(user: UserId, engine: string, url: string, storageKey: string, name: string)

  /** How the node answers a dispatch: an error or a rejection is a refusal with its message. */
  datatype Dispatch = Accepted(engineJobId: string, location: string) | Refused(error: string)

  /** What Add meets: the node the scheduler selects and whether it is connected, new IDs, the node's answer. */
  datatype Circumstances = Circumstances(
    selected: Option<NodeId>, connected: bool, newJob: JobId, newDownload: DownloadId, dispatch: Dispatch)

  datatype AddError = CannotAttach | NoNode | NotConnected | CannotLink | CannotCreate | DispatchRefused

  datatype Added = Added(download: DownloadId, job: JobId, cacheHit: bool, node: Option<NodeId>, status: Status)

  /** What Add does: its statements, whether it dispatched the job, and its answer. */
  datatype Adding = Adding(actions: seq<Action>, dispatched: bool, answer: Result<Added, AddError>)

  ghost predicate IsJobOf(jobs: Jobs, key: string, r: Option<JobId>) {
    match r
    case Some(id) => id in jobs && jobs[id].storageKey == key
    case None => !KeyTaken(jobs, key)
  }

  ghost predicate IsDownloadOf(downloads: Downloads, user: UserId, job: JobId, r: Option<DownloadId>) {
    match r
    case Some(d) => d in downloads && downloads[d] == Download(user, job)
    case None => !HasDownload(downloads, user, job)
  }

  predicate Reusable(j: Job) {
    j.status == Failed || j.status == Inactive
  }

  /** The statements and answer after the job and download exist and the job was sent to the node. */
  function Dispatched(before: seq<Action>, id: JobId, download: DownloadId, n: NodeId, d: Dispatch): Adding {
    match d
    case Accepted(gid, location) =>
      Adding(before + [UpdateJobs(UpdateJobStatus(id, Active, gid, "", location))], true,
             Ok(Added(download, id, false, Some(n), Active)))
    case Refused(error) =>
      Adding(before + [UpdateJobs(UpdateJobStatus(id, Failed, "", if error == "" then "node rejected job" else error, ""))],
             true, Err(DispatchRefused))
  }

  /** Add, given the job of the storage key and the user's download of that job. */
  function AddWith(s: Db, req: Request, c: Circumstances, job: Option<JobId>, mine: Option<DownloadId>): Adding
    requires job.Some? ==> job.value in s.jobs
  {
    if job.Some? && !Reusable(s.jobs[job.value]) then
      var j := s.jobs[job.value];
      var link := CreateDownload(c.newDownload, req.user, job.value);
      var answer := (d: DownloadId) => Ok(Added(d, job.value, j.status == Completed, j.nodeId, j.status));
      if mine.Some? then Adding([], false, answer(mine.value))
      else Adding([link], false, if Admissible(s, link) then answer(c.newDownload) else Err(CannotAttach))
    else if c.selected.None? then Adding([], false, Err(NoNode))
    else if !c.connected then Adding([], false, Err(NotConnected))
    else
      var n := c.selected.value;
      if job.Some? && n in s.nodes then
        var id := job.value;
        var link := CreateDownload(c.newDownload, req.user, id);
        var start := [UpdateJobs(ResetJob(id, n, req.url)), link];
        if Admissible(s, link) then Dispatched(start, id, c.newDownload, n, c.dispatch)
        else if mine.Some? then Dispatched(start, id, mine.value, n, c.dispatch)
        else Adding(start, false, Err(CannotLink))
      else
        var create := CreateJob(c.newJob, NewJob(n, req.engine, req.url, req.storageKey, req.name), c.newDownload, req.user);
        if Admissible(s, create) then Dispatched([create], c.newJob, c.newDownload, n, c.dispatch)
        else Adding([create], false, Err(CannotCreate))
  }

  /** `a` is what Add does. */
  ghost predicate IsAdd(s: Db, req: Request, c: Circumstances, a: Adding) {
    exists job: Option<JobId>, mine: Option<DownloadId> ::
      && IsJobOf(s.jobs, req.storageKey, job)
      && (job.Some? ==> IsDownloadOf(s.downloads, req.user, job.value, mine))
      && a == AddWith(s, req, c, job, mine)
  }

  /** The node reports a file:// location. */
  predicate LocatesFiles(d: Dispatch) {
    d.Accepted? ==> IsLocalUri(d.location)
  }

  lemma AllowOne(s: Db, a: Action)
    ensures Run(s, [a]) == Next(s, a)
    ensures Allowed(s, [a]) <==> Guard(s, a)
  {
    RunOne(s, a);
    assert [a][1..] == [];
  }

  lemma AllowTwo(s: Db, a: Action, b: Action)
    ensures Run(s, [a, b]) == Next(Next(s, a), b)
    ensures Allowed(s, [a, b]) <==> Guard(s, a) && Guard(Next(s, a), b)
  {
    assert [a, b][1..] == [b];
    AllowOne(Next(s, a), b);
  }

  lemma AllowThen(s: Db, xs: seq<Action>, a: Action)
    ensures Run(s, xs + [a]) == Next(Run(s, xs), a)
    ensures Allowed(s, xs + [a]) <==> Allowed(s, xs) && Guard(Run(s, xs), a)
  {
    RunConcat(s, xs, [a]);
    AllowedConcat(s, xs, [a]);
    AllowOne(Run(s, xs), a);
  }

  /** A queued row without an upload result can be activated or failed. */
  lemma DispatchAllowed(s: Db, id: JobId, gid: string, error: string, location: string)
    requires id in s.jobs && s.jobs[id].nodeId.Some? && s.jobs[id].uploadStatus != Uploaded
    ensures IsLocalUri(location) ==> Guard(s, UpdateJobs(UpdateJobStatus(id, Active, gid, "", location)))
    ensures Guard(s, UpdateJobs(UpdateJobStatus(id, Failed, "", error, "")))
  {
  }

  /** After Add has prepared the job, its row is assigned and not uploaded. */
  lemma Prepared(s: Db, id: JobId, n: NodeId, url: string, link: Action)
    requires Inv(s) && id in s.jobs && Reusable(s.jobs[id]) && n in s.nodes && link.CreateDownload?
    ensures var t := Next(Next(s, UpdateJobs(ResetJob(id, n, url))), link);
            id in t.jobs && t.jobs[id].nodeId.Some? && t.jobs[id].uploadStatus != Uploaded
  {
    hide Constraints, JobsKept;
    assert RowOk(s.jobs[id]);
    assert Exec(ResetJob(id, n, url), id, s.jobs[id]).nodeId == Some(n);
    hide Exec, RowsOk;
    var r := Next(s, UpdateJobs(ResetJob(id, n, url)));
    assert r.jobs[id] == Exec(ResetJob(id, n, url), id, s.jobs[id]);
  }

  lemma CreatedRow(s: Db, a: Action)
    requires a.CreateJob? && Admissible(s, a)
    ensures a.id in Next(s, a).jobs && Next(s, a).jobs[a.id] == FreshRow(a.row)
  {
  }

  /** Add's statements all meet their guards, whatever it meets. */
  lemma AddAllowed(s: Db, req: Request, c: Circumstances, job: Option<JobId>, mine: Option<DownloadId>)
    requires Inv(s) && LocatesFiles(c.dispatch)
    requires IsJobOf(s.jobs, req.storageKey, job)
    ensures Allowed(s, AddWith(s, req, c, job, mine).actions)
  {
    hide Inv, Next, Guard;
    var a := AddWith(s, req, c, job, mine);
    if job.Some? && !Reusable(s.jobs[job.value]) {
      var link := CreateDownload(c.newDownload, req.user, job.value);
      Unguarded(s, link);
      AllowOne(s, link);
    } else if c.selected.Some? && c.connected {
      var n := c.selected.value;
      if job.Some? && n in s.nodes {
        var id := job.value;
        var reset, link := UpdateJobs(ResetJob(id, n, req.url)), CreateDownload(c.newDownload, req.user, id);
        ResetGuard(s, reset);
        Unguarded(Next(s, reset), link);
        AllowTwo(s, reset, link);
        Prepared(s, id, n, req.url, link);
        FinishAllowed(s, [reset, link], id, c.dispatch);
      } else {
        var create := CreateJob(c.newJob, NewJob(n, req.engine, req.url, req.storageKey, req.name), c.newDownload, req.user);
        Unguarded(s, create);
        AllowOne(s, create);
        if Admissible(s, create) {
          CreatedRow(s, create);
          FinishAllowed(s, [create], c.newJob, c.dispatch);
        }
      }
    }
  }

  lemma ResetGuard(s: Db, a: Action)
    requires a.UpdateJobs? && a.update.ResetJob?
    ensures Guard(s, a)
  {
  }

  lemma FinishAllowed(s: Db, start: seq<Action>, id: JobId, d: Dispatch)
    requires Allowed(s, start) && LocatesFiles(d)
    requires var t := Run(s, start); id in t.jobs && t.jobs[id].nodeId.Some? && t.jobs[id].uploadStatus != Uploaded
    ensures forall download: DownloadId, n: NodeId :: Allowed(s, Dispatched(start, id, download, n, d).actions)
  {
    hide Guard;
    var t := Run(s, start);
    match d {
      case Accepted(gid, location) =>
        DispatchAllowed(t, id, gid, "", location);
        AllowThen(s, start, UpdateJobs(UpdateJobStatus(id, Active, gid, "", location)));
      case Refused(error) =>
        var message := if error == "" then "node rejected job" else error;
        DispatchAllowed(t, id, "", message, "");
        AllowThen(s, start, UpdateJobs(UpdateJobStatus(id, Failed, "", message, "")));
    }
  }

  /** The statement creates the job of the key, which had none, or resets it from failed or inactive. */
  predicate Prepares(s: Db, a: Action, key: string) {
    || (a.CreateJob? && Admissible(s, a) && a.row.storageKey == key)
    || (a.UpdateJobs? && a.update.ResetJob? && a.update.id in s.jobs
        && s.jobs[a.update.id].storageKey == key && Reusable(s.jobs[a.update.id]))
  }

  /**
   A job is dispatched only when Add just created or reset it, so never while it is queued, active or
   completed; and for an existing user every creation or reset is dispatched.
   */
  lemma DispatchedOnce(s: Db, req: Request, c: Circumstances, a: Adding)
    requires IsAdd(s, req, c, a)
    ensures a.dispatched ==> a.actions != [] && Prepares(s, a.actions[0], req.storageKey)
    ensures (req.user in s.users && c.newDownload !in s.downloads && a.actions != []
             && Prepares(s, a.actions[0], req.storageKey)) ==> a.dispatched
  {
    var job: Option<JobId>, mine: Option<DownloadId> :| IsJobOf(s.jobs, req.storageKey, job)
      && (job.Some? ==> IsDownloadOf(s.downloads, req.user, job.value, mine)) && a == AddWith(s, req, c, job, mine);
    hide Next, HasDownload, KeyTaken;
  }

  /** r names a download of the user for the job with the key. */
  predicate Names(t: Db, req: Request, r: Added) {
    && r.download in t.downloads && t.downloads[r.download] == Download(req.user, r.job)
    && r.job in t.jobs && t.jobs[r.job].storageKey == req.storageKey
  }

  lemma NamesStay(s: Db, t: Db, req: Request, r: Added)
    requires Names(s, req, r) && Extends(s, t)
    ensures Names(t, req, r)
  {
  }

  lemma LinkedNames(s: Db, req: Request, link: Action, r: Added)
    requires link.CreateDownload? && link.user == req.user && Admissible(s, link)
    requires r.download == link.download && r.job == link.job && s.jobs[r.job].storageKey == req.storageKey
    ensures Names(Next(s, link), req, r)
  {
  }

  lemma CreatedNames(s: Db, req: Request, create: Action, r: Added)
    requires create.CreateJob? && create.user == req.user && Admissible(s, create)
    requires r.download == create.download && r.job == create.id && create.row.storageKey == req.storageKey
    ensures Names(Next(s, create), req, r)
  {
  }

  /** The step from which on the answer names a download of the user. */
  lemma AnswerIsMine(s: Db, req: Request, c: Circumstances, a: Adding)
    requires IsAdd(s, req, c, a) && a.answer.Ok?
    ensures Names(Run(s, a.actions), req, a.answer.value)
  {
    hide Next, Names, Extends, HasDownload, KeyTaken;
    var job: Option<JobId>, mine: Option<DownloadId> :| IsJobOf(s.jobs, req.storageKey, job)
      && (job.Some? ==> IsDownloadOf(s.downloads, req.user, job.value, mine)) && a == AddWith(s, req, c, job, mine);
    var r := a.answer.value;
    AddOnlyInserts(s, req, c, a);
    RunExtends(s, a.actions);
    if job.Some? && IsDownloadOf(s.downloads, req.user, job.value, mine) && mine.Some? && r.download == mine.value {
      NamesStay(s, Run(s, a.actions), req, r);
    } else if a.actions[0].UpdateJobs? {
      var link := a.actions[1];
      ResetKeepsLinks(s, a.actions[0], link);
      LinkedNames(Next(s, a.actions[0]), req, link, r);
      AllowTwo(s, a.actions[0], link);
      StepExtends(Run(s, [a.actions[0], link]), a.actions[2]);
      AllowThen(s, [a.actions[0], link], a.actions[2]);
      NamesStay(Run(s, [a.actions[0], link]), Run(s, a.actions), req, r);
    } else if a.actions[0].CreateDownload? {
      LinkedNames(s, req, a.actions[0], r);
      AllowOne(s, a.actions[0]);
    } else {
      CreatedNames(s, req, a.actions[0], r);
      AllowOne(s, a.actions[0]);
      StepExtends(Run(s, [a.actions[0]]), a.actions[1]);
      AllowThen(s, [a.actions[0]], a.actions[1]);
      NamesStay(Run(s, [a.actions[0]]), Run(s, a.actions), req, r);
    }
  }

  lemma ResetKeepsLinks(s: Db, reset: Action, link: Action)
    requires reset.UpdateJobs? && reset.update.ResetJob? && link.CreateDownload? && Admissible(s, link)
    ensures var t := Next(s, reset);
            Admissible(t, link) && t.jobs.Keys == s.jobs.Keys
            && forall id :: id in s.jobs ==> t.jobs[id].storageKey == s.jobs[id].storageKey
  {
  }

  /**
   Adding the same content again returns the same download, through failures, resets, and any other
   steps in between, as long as nothing is deleted.
   */
  lemma AddIsIdempotent(s: Db, first: Request, c: Circumstances, a: Adding, between: seq<Action>,
                        second: Request, c': Circumstances, b: Adding)
    requires Inv(s) && LocatesFiles(c.dispatch) && IsAdd(s, first, c, a) && a.answer.Ok?
    requires second.user == first.user && second.storageKey == first.storageKey
    requires forall i :: 0 <= i < |between| ==> !Deletes(between[i])
    requires var t := Run(Run(s, a.actions), between);
             Inv(t) && LocatesFiles(c'.dispatch) && IsAdd(t, second, c', b) && b.answer.Ok?
    ensures b.answer.value.download == a.answer.value.download && b.answer.value.job == a.answer.value.job
  {
    hide Next, IsAdd, Guard;
    var t := Run(Run(s, a.actions), between);
    var u := Run(t, b.actions);
    AnswerIsMine(s, first, c, a);
    RunExtends(Run(s, a.actions), between);
    NamesStay(Run(s, a.actions), t, first, a.answer.value);
    AddOnlyInserts(t, second, c', b);
    RunExtends(t, b.actions);
    NamesStay(t, u, first, a.answer.value);
    AnswerIsMine(t, second, c', b);
    AddKeepsInv(t, second, c', b);
  }

  lemma AddOnlyInserts(s: Db, req: Request, c: Circumstances, a: Adding)
    requires IsAdd(s, req, c, a)
    ensures forall i :: 0 <= i < |a.actions| ==> !Deletes(a.actions[i])
  {
  }

  lemma AddKeepsInv(s: Db, req: Request, c: Circumstances, a: Adding)
    requires Inv(s) && LocatesFiles(c.dispatch) && IsAdd(s, req, c, a)
    ensures Allowed(s, a.actions) && Inv(Run(s, a.actions))
  {
    hide Inv, Allowed, AddWith;
    var job: Option<JobId>, mine: Option<DownloadId> :| IsJobOf(s.jobs, req.storageKey, job)
      && (job.Some? ==> IsDownloadOf(s.downloads, req.user, job.value, mine)) && a == AddWith(s, req, c, job, mine);
    AddAllowed(s, req, c, job, mine);
    RunKeepsInv(s, a.actions);
  }

  // ---------- Delete ----------

  /** Reference semantics of deletion: remove the downloads and, with them, the jobs nothing refers to. */
  ghost function Collected(s: Db, gone: set<DownloadId>): Db {
    DropDownloads(s, gone).(jobs := map id | id in s.jobs && Kept(s, id, gone) :: s.jobs[id])
  }

  /** The statement Delete and DeleteUser choose by the number of downloads of the job. */
  function DeleteAction(s: Db, d: DownloadId): Action
    requires d in s.downloads
  {
    var id := s.downloads[d].jobId;
    if |DownloadsOf(s, id)| <= 1 then DeleteJob(id) else DeleteDownload(d)
  }

  lemma OnlyMember<T>(xs: set<T>, x: T)
    requires x in xs && |xs| <= 1
    ensures xs == {x}
  {
    assert |xs - {x}| == 0;
  }

  lemma OtherMember<T>(xs: set<T>, x: T)
    requires x in xs && |xs| > 1
    ensures exists y :: y in xs && y != x
  {
    assert |xs - {x}| > 0;
    var y :| y in xs - {x};
  }

  lemma KeptWithout(s: Db, d: DownloadId, id: JobId)
    requires JobsKept(s) && d in s.downloads && id in s.jobs
    ensures Kept(s, id, {d}) <==> s.downloads[d].jobId != id || |DownloadsOf(s, id)| > 1
  {
    var all := DownloadsOf(s, id);
    if s.downloads[d].jobId != id {
      assert Kept(s, id, {});
      var e :| e in s.downloads && s.downloads[e].jobId == id;
      assert e !in {d};
    } else if |all| > 1 {
      OtherMember(all, d);
      var e :| e in all && e != d;
      assert e !in {d};
    } else {
      OnlyMember(all, d);
      assert forall e :: e in s.downloads && s.downloads[e].jobId == id ==> e in all;
    }
  }

  /** The chosen statement is the collection of that one download. */
  lemma DeleteCollects(s: Db, d: DownloadId)
    requires Inv(s) && d in s.downloads
    ensures Next(s, DeleteAction(s, d)) == Collected(s, {d})
    ensures Guard(s, DeleteAction(s, d)) && Inv(Collected(s, {d}))
  {
    hide RowsOk, Constraints, Kept;
    var id := s.downloads[d].jobId;
    assert id in s.jobs by { DownloadHasJob(s, d); }
    forall k | k in s.jobs ensures Kept(s, k, {d}) <==> k != id || |DownloadsOf(s, id)| > 1 {
      KeptWithout(s, d, k);
    }
    var t := Collected(s, {d});
    if |DownloadsOf(s, id)| <= 1 {
      OnlyMember(DownloadsOf(s, id), d);
      assert t.jobs == s.jobs - {id};
    } else {
      assert t.jobs == s.jobs;
    }
    StepExact(s, DeleteAction(s, d));
  }

  lemma DownloadHasJob(s: Db, d: DownloadId)
    requires Inv(s) && d in s.downloads
    ensures s.downloads[d].jobId in s.jobs
  {
  }

  /** Collecting in two rounds is collecting at once. */
  lemma CollectedTwice(s: Db, gone: set<DownloadId>, more: set<DownloadId>)
    ensures Collected(Collected(s, gone), more) == Collected(s, gone + more)
  {
    var t, u := Collected(s, gone), Collected(s, gone + more);
    var v := Collected(t, more);
    assert v.downloads == u.downloads && v.links == u.links;
    forall id | id in s.jobs
      ensures Kept(s, id, gone) && Kept(t, id, more) <==> Kept(s, id, gone + more)
    {
    }
    assert v.jobs == u.jobs;
  }

  // ---------- DeleteUser ----------

  function ToSet<T>(xs: seq<T>): set<T> {
    set x | x in xs
  }

  predicate Distinct<T(==)>(xs: seq<T>) {
    forall i, j :: 0 <= i < j < |xs| ==> xs[i] != xs[j]
  }

  /** The statements DeleteUser's loop issues for the listed downloads, all chosen by the counts of state s. */
  function DeleteActions(s: Db, rows: seq<DownloadId>): seq<Action>
    requires forall d :: d in rows ==> d in s.downloads
  {
    if rows == [] then [] else DeleteActions(s, rows[..|rows| - 1]) + [DeleteAction(s, rows[|rows| - 1])]
  }

  lemma CountsStayRight(s: Db, u: UserId, gone: set<DownloadId>, d: DownloadId)
    requires Inv(s) && gone <= DownloadsBy(s, u) && d in DownloadsBy(s, u) && d !in gone
    ensures d in Collected(s, gone).downloads
    ensures DeleteAction(Collected(s, gone), d) == DeleteAction(s, d)
  {
    hide RowsOk, JobsKept, NodesExist, KeysUnique, DownloadsValid, LinksValid;
    var t := Collected(s, gone);
    var id := s.downloads[d].jobId;
    assert forall e :: e in gone ==> s.downloads[e].userId == u && s.downloads[e] != s.downloads[d];
    assert DownloadsOf(t, id) == DownloadsOf(s, id);
  }

  /**
   DeleteUser reads the download counts once, up front; they stay right through its loop: after any
   number of rounds the database is the collection of the downloads deleted so far.
   */
  lemma {:induction false} DeleteActionsCollect(s: Db, u: UserId, rows: seq<DownloadId>)
    requires Inv(s) && Distinct(rows) && ToSet(rows) <= DownloadsBy(s, u)
    ensures forall d :: d in rows ==> d in s.downloads
    ensures var actions := DeleteActions(s, rows);
            && Allowed(s, actions)
            && Run(s, actions) == Collected(s, ToSet(rows))
            && Inv(Collected(s, ToSet(rows)))
    decreases |rows|
  {
    hide Inv, Next, Guard, Collected;
    assert forall d :: d in rows ==> d in ToSet(rows);
    if rows == [] {
      CollectNothing(s);
      assert ToSet(rows) == {};
    } else {
      var before, d := rows[..|rows| - 1], rows[|rows| - 1];
      assert ToSet(rows) == ToSet(before) + {d} && d !in ToSet(before);
      DeleteActionsCollect(s, u, before);
      var t := Collected(s, ToSet(before));
      CountsStayRight(s, u, ToSet(before), d);
      DeleteCollects(t, d);
      CollectedTwice(s, ToSet(before), {d});
      AllowThen(s, DeleteActions(s, before), DeleteAction(s, d));
    }
  }

  lemma CollectNothing(s: Db)
    requires Inv(s)
    ensures Collected(s, {}) == s
  {
    hide RowsOk, Constraints;
  }

  /** DeleteUser: all of the user's downloads go, and exactly the jobs that no other user has. */
  lemma DeleteUserCollects(s: Db, u: UserId, rows: seq<DownloadId>)
    requires Inv(s) && Distinct(rows) && ToSet(rows) == DownloadsBy(s, u)
    ensures forall d :: d in rows ==> d in s.downloads
    ensures var actions := DeleteActions(s, rows) + [DeleteUser(u)];
            var t := Run(s, actions);
            && Allowed(s, actions) && Inv(t)
            && t.users == s.users - {u}
            && t.downloads == (map d | d in s.downloads && s.downloads[d].userId != u :: s.downloads[d])
            && t.jobs == (map id | id in s.jobs && Kept(s, id, DownloadsBy(s, u)) :: s.jobs[id])
  {
    hide Inv, Guard, Kept;
    DeleteActionsCollect(s, u, rows);
    var actions, c := DeleteActions(s, rows), Collected(s, DownloadsBy(s, u));
    AllowThen(s, actions, DeleteUser(u));
    assert DownloadsBy(c, u) == {};
    assert Guard(c, DeleteUser(u)) by { NoDownloadsGuard(c, u); }
    StepExact(c, DeleteUser(u));
    assert c.downloads - {} == c.downloads;
  }

  lemma NoDownloadsGuard(s: Db, u: UserId)
    requires DownloadsBy(s, u) == {}
    ensures Guard(s, DeleteUser(u))
  {
  }
}
