/** How often the content of a storage key is dispatched, over whole runs of entry points. */
module Counting {
  import opened Wrappers
  import opened Reports
  import opened Tables
  import opened Protocol
  import opened DownloadSteps
  import Events

  /** How many statements of the run create the job of the key or reset it. */
  function Preparations(s: Db, actions: seq<Action>, key: string): nat
    decreases |actions|
  {
    if actions == [] then 0
    else (if Prepares(s, actions[0], key) then 1 else 0) + Preparations(Next(s, actions[0]), actions[1..], key)
  }

  /** Creations and resets of the key's job over a run of entry points. */
  function AllPreparations(s: Db, events: seq<Events.Event>, key: string): nat
    decreases |events|
  {
    if events == [] then 0
    else Preparations(s, Events.Plan(s, events[0]), key) + AllPreparations(Events.After(s, events[0]), events[1..], key)
  }

  predicate DispatchesKey(e: Events.Event, key: string) {
    e.Add? && e.request.storageKey == key && e.adding.dispatched
  }

  /** Add reset the job but could not give the user a download of it. */
  predicate Abandons(e: Events.Event, key: string) {
    e.Add? && e.request.storageKey == key && e.adding.answer == Err(CannotLink)
  }

  function CountOf(events: seq<Events.Event>, p: Events.Event -> bool): nat
    decreases |events|
  {
    if events == [] then 0 else (if p(events[0]) then 1 else 0) + CountOf(events[1..], p)
  }

  /** No statement of the plan creates or resets a job. */
  predicate InsertsNoJob(actions: seq<Action>) {
    forall i :: 0 <= i < |actions| ==> !actions[i].CreateJob? && !(actions[i].UpdateJobs? && actions[i].update.ResetJob?)
  }

  lemma {:induction false} NothingPrepared(s: Db, actions: seq<Action>, key: string)
    requires InsertsNoJob(actions)
    ensures Preparations(s, actions, key) == 0
    decreases |actions|
  {
    hide Next;
    if actions != [] {
      NothingPrepared(Next(s, actions[0]), actions[1..], key);
    }
  }

  lemma ListsInsertNoJob(nodes: seq<NodeId>, ids: seq<JobId>)
    ensures InsertsNoJob(Events.SetOffline(nodes)) && InsertsNoJob(Events.AllJobsOffline(nodes))
    ensures InsertsNoJob(Events.FailAll(ids))
  {
    if nodes != [] {
      ListsInsertNoJob(nodes[..|nodes| - 1], ids);
      var before, last := Events.AllJobsOffline(nodes[..|nodes| - 1]), Events.JobsOffline(nodes[|nodes| - 1]);
      assert InsertsNoJob(before) && InsertsNoJob(last) && Events.AllJobsOffline(nodes) == before + last;
    } else if ids != [] {
      ListsInsertNoJob(nodes, ids[..|ids| - 1]);
    }
  }

  lemma DeletionsInsertNoJob(s: Db, rows: seq<DownloadId>)
    requires forall d :: d in rows ==> d in s.downloads
    ensures InsertsNoJob(DeleteActions(s, rows))
  {
  }

  /** Only Add creates or resets jobs. */
  lemma OthersInsertNoJob(s: Db, e: Events.Event)
    requires !e.Add?
    ensures InsertsNoJob(Events.Plan(s, e))
  {
    match e {
      case StartController(_, stale, _) => ListsInsertNoJob(stale, []);
      case Reap(nodes, _, _) => ListsInsertNoJob(nodes, []);
      case FailStale(ids) => ListsInsertNoJob([], ids);
      case RemoveUser(_, rows) =>
        if forall d :: d in rows ==> d in s.downloads {
          DeletionsInsertNoJob(s, rows);
        }
      case _ =>
    }
  }

  /** An Add prepares its key's job once if it dispatches it or gives up on it, else never, and no other job. */
  lemma AddPrepares(s: Db, req: Request, c: Circumstances, a: Adding, key: string)
    requires IsAdd(s, req, c, a)
    ensures Preparations(s, a.actions, key)
         == if req.storageKey == key && (a.dispatched || a.answer == Err(CannotLink)) then 1 else 0
  {
    var job: Option<JobId>, mine: Option<DownloadId> :| IsJobOf(s.jobs, req.storageKey, job)
      && (job.Some? ==> IsDownloadOf(s.downloads, req.user, job.value, mine)) && a == AddWith(s, req, c, job, mine);
    hide Next, HasDownload;
    if a.actions != [] {
      NothingPrepared(Next(s, a.actions[0]), a.actions[1..], key);
    }
  }

  /**
   Over any run of entry points, the dispatches of a key are exactly the creations and resets of its job, less
   the Adds that reset it and then could not link it to the user.
   */
  lemma {:induction false} DispatchesAreCounted(s: Db, events: seq<Events.Event>, key: string)
    requires Events.Played(s, events)
    ensures AllPreparations(s, events, key)
         == CountOf(events, e => DispatchesKey(e, key)) + CountOf(events, e => Abandons(e, key))
    decreases |events|
  {
    hide Events.Plan, Events.Possible, Events.Trusted, Preparations;
    if events != [] {
      var e := events[0];
      OneEvent(s, e, key);
      DispatchesAreCounted(Events.After(s, e), events[1..], key);
    }
  }

  lemma OneEvent(s: Db, e: Events.Event, key: string)
    requires Events.Possible(s, e)
    ensures Preparations(s, Events.Plan(s, e), key)
         == (if DispatchesKey(e, key) then 1 else 0) + (if Abandons(e, key) then 1 else 0)
  {
    hide Preparations, IsAdd;
    if e.Add? {
      AddPrepares(s, e.request, e.circumstances, e.adding, key);
      NotBoth(s, e.request, e.circumstances, e.adding);
    } else {
      OthersInsertNoJob(s, e);
      NothingPrepared(s, Events.Plan(s, e), key);
    }
  }

  /** Giving up needs a user who is gone, or a download ID that is taken. */
  lemma NotBoth(s: Db, req: Request, c: Circumstances, a: Adding)
    requires IsAdd(s, req, c, a)
    ensures a.answer == Err(CannotLink) ==> !a.dispatched && (req.user !in s.users || c.newDownload in s.downloads)
  {
    var job: Option<JobId>, mine: Option<DownloadId> :| IsJobOf(s.jobs, req.storageKey, job)
      && (job.Some? ==> IsDownloadOf(s.downloads, req.user, job.value, mine)) && a == AddWith(s, req, c, job, mine);
  }

  /** Every Add of the run is by a user and with a new download ID. */
  predicate AddsByUsers(s: Db, events: seq<Events.Event>)
    decreases |events|
  {
    events != [] ==>
      && (events[0].Add? ==> events[0].request.user in s.users && events[0].circumstances.newDownload !in s.downloads)
      && AddsByUsers(Events.After(s, events[0]), events[1..])
  }

  /** For users, dispatches of a key equal creations plus resets of its job. */
  lemma {:induction false} DispatchesEqualPreparations(s: Db, events: seq<Events.Event>, key: string)
    requires Events.Played(s, events) && AddsByUsers(s, events)
    ensures AllPreparations(s, events, key) == CountOf(events, e => DispatchesKey(e, key))
  {
    DispatchesAreCounted(s, events, key);
    NoneAbandoned(s, events, key);
  }

  lemma {:induction false} NoneAbandoned(s: Db, events: seq<Events.Event>, key: string)
    requires Events.Played(s, events) && AddsByUsers(s, events)
    ensures CountOf(events, e => Abandons(e, key)) == 0
    decreases |events|
  {
    hide Events.Plan, Events.Trusted, IsAdd;
    if events != [] {
      var e := events[0];
      if e.Add? {
        NotBoth(s, e.request, e.circumstances, e.adding);
      }
      NoneAbandoned(Events.After(s, e), events[1..], key);
    }
  }
}
