/** PushJobStatuses as a function of the job table, and batches compared with single pushes. */
module Push {
  import opened Wrappers
  import opened Reports
  import opened Tables

  function Select(reports: seq<StatusReport>, p: StatusReport -> bool): (r: seq<StatusReport>)
    ensures forall x :: x in r <==> x in reports && p(x)
  {
    if reports == [] then []
    else
      var last := reports[|reports| - 1];
      Select(reports[..|reports| - 1], p) + (if p(last) then [last] else [])
  }

  function ProgressOf(reports: seq<StatusReport>): seq<StatusReport> {
    Select(reports, (r: StatusReport) => !Terminal(r.state))
  }

  function CompletedOf(reports: seq<StatusReport>): seq<StatusReport> {
    Select(reports, (r: StatusReport) => r.state == StateCompleted)
  }

  function FailedOf(reports: seq<StatusReport>): seq<StatusReport> {
    Select(reports, (r: StatusReport) => r.state == StateFailed)
  }

  function TerminalOf(reports: seq<StatusReport>): seq<StatusReport> {
    Select(reports, (r: StatusReport) => Terminal(r.state))
  }

  lemma SelectLast(reports: seq<StatusReport>, last: StatusReport, p: StatusReport -> bool)
    ensures Select(reports + [last], p) == Select(reports, p) + (if p(last) then [last] else [])
  {
    assert (reports + [last])[..|reports|] == reports;
  }

  /** A choice of one report for each reported job. */
  ghost predicate ChoiceOf(chosen: Chosen, reports: seq<StatusReport>) {
    && (forall r :: r in reports ==> r.jobId in chosen)
    && (forall id :: id in chosen ==> chosen[id] in reports && chosen[id].jobId == id)
  }

  /** The three batch statements of a push. */
  function PushBatch(jobs: Jobs, progress: Chosen, completed: Chosen, failed: Chosen, uploadPending: bool): Jobs {
    Apply(BatchFailJobs(failed),
          Apply(BatchCompleteJobs(completed, uploadPending), Apply(BatchUpdateJobProgress(progress), jobs)))
  }

  /** The table after pushing the reports: some choice where a job is reported twice. */
  ghost predicate Pushed(jobs: Jobs, reports: seq<StatusReport>, uploadPending: bool, after: Jobs) {
    exists p, c, f ::
      && ChoiceOf(p, ProgressOf(reports)) && ChoiceOf(c, CompletedOf(reports)) && ChoiceOf(f, FailedOf(reports))
      && after == PushBatch(jobs, p, c, f, uploadPending)
  }

  lemma BatchIsPushed(jobs: Jobs, reports: seq<StatusReport>, p: Chosen, c: Chosen, f: Chosen, uploadPending: bool)
    requires ChoiceOf(p, ProgressOf(reports)) && ChoiceOf(c, CompletedOf(reports)) && ChoiceOf(f, FailedOf(reports))
    ensures Pushed(jobs, reports, uploadPending, PushBatch(jobs, p, c, f, uploadPending))
  {
  }

  /** The completions of the batch go through. */
  predicate Completes(jobs: Jobs, progress: Chosen, completed: Chosen) {
    !SizeUnknown(Apply(BatchUpdateJobProgress(progress), jobs), completed)
  }

  /** The three statements, row by row. */
  function BatchedRow(j: Job, id: JobId, p: Chosen, c: Chosen, f: Chosen, completes: bool, uploadPending: bool): Job {
    var m := if id in p then Progressed(j, p[id]) else j;
    var d := if id in c && completes then Finished(m, c[id], uploadPending) else m;
    if id in f then FailedBy(d, f[id]) else d
  }

  lemma BatchByRow(jobs: Jobs, p: Chosen, c: Chosen, f: Chosen, uploadPending: bool, id: JobId)
    requires id in jobs
    ensures id in PushBatch(jobs, p, c, f, uploadPending)
    ensures PushBatch(jobs, p, c, f, uploadPending)[id]
         == BatchedRow(jobs[id], id, p, c, f, Completes(jobs, p, c), uploadPending)
  {
    hide Progressed, Finished, FailedBy, SizeUnknown;
  }

  // ---------- One report at a time ----------

  /** What one report makes of its row. */
  function Reported(j: Job, r: StatusReport, uploadPending: bool): Job {
    match r.state
    case StateCompleted => if FinalSize(j, r).Some? then Finished(j, r, uploadPending) else j
    case StateFailed => FailedBy(j, r)
    case _ => Progressed(j, r)
  }

  function PushOne(jobs: Jobs, r: StatusReport, uploadPending: bool): Jobs {
    if r.jobId in jobs then jobs[r.jobId := Reported(jobs[r.jobId], r, uploadPending)] else jobs
  }

  function PushEach(jobs: Jobs, reports: seq<StatusReport>, uploadPending: bool): Jobs
    decreases |reports|
  {
    if reports == [] then jobs else PushEach(PushOne(jobs, reports[0], uploadPending), reports[1..], uploadPending)
  }

  ghost predicate DistinctJobs(reports: seq<StatusReport>) {
    forall i, j :: 0 <= i < j < |reports| ==> reports[i].jobId != reports[j].jobId
  }

  predicate SizeKnown(jobs: Jobs, r: StatusReport) {
    r.jobId in jobs ==> FinalSize(jobs[r.jobId], r).Some?
  }

  lemma {:induction false} EachRow(jobs: Jobs, reports: seq<StatusReport>, uploadPending: bool, id: JobId)
    requires DistinctJobs(reports) && id in jobs
    ensures PushEach(jobs, reports, uploadPending).Keys == jobs.Keys
    ensures forall r :: r in reports && r.jobId == id ==>
              PushEach(jobs, reports, uploadPending)[id] == Reported(jobs[id], r, uploadPending)
    ensures (forall r :: r in reports ==> r.jobId != id) ==> PushEach(jobs, reports, uploadPending)[id] == jobs[id]
    decreases |reports|
  {
    hide Reported;
    if reports != [] {
      var next := PushOne(jobs, reports[0], uploadPending);
      EachRow(next, reports[1..], uploadPending, id);
      assert forall r :: r in reports ==> r == reports[0] || r in reports[1..];
      assert forall r :: r in reports[1..] ==> r.jobId != reports[0].jobId;
    }
  }

  lemma ChoiceIsReport(chosen: Chosen, reports: seq<StatusReport>, all: seq<StatusReport>, r: StatusReport)
    requires ChoiceOf(chosen, reports) && DistinctJobs(all) && r in all && forall x :: x in reports ==> x in all
    ensures r.jobId in chosen ==> chosen[r.jobId] == r && r in reports
    ensures r in reports ==> r.jobId in chosen
  {
    if r.jobId in chosen {
      var x := chosen[r.jobId];
      var i, k :| 0 <= i < |all| && all[i] == r && 0 <= k < |all| && all[k] == x;
      assert i == k;
    }
  }

  /** The batch result on a row, when the completions go through. */
  lemma BatchRow(jobs: Jobs, reports: seq<StatusReport>, p: Chosen, c: Chosen, f: Chosen, uploadPending: bool, id: JobId)
    requires DistinctJobs(reports) && id in jobs
    requires ChoiceOf(p, ProgressOf(reports)) && ChoiceOf(c, CompletedOf(reports)) && ChoiceOf(f, FailedOf(reports))
    requires forall r :: r in reports && r.state == StateCompleted ==> SizeKnown(jobs, r)
    ensures forall r :: r in reports && r.jobId == id ==>
              PushBatch(jobs, p, c, f, uploadPending)[id] == Reported(jobs[id], r, uploadPending)
    ensures (forall r :: r in reports ==> r.jobId != id) ==> PushBatch(jobs, p, c, f, uploadPending)[id] == jobs[id]
  {
    hide Progressed, Finished, FailedBy, Select, FinalSize, PushBatch;
    BatchByRow(jobs, p, c, f, uploadPending, id);
    assert Completes(jobs, p, c) by {
      var mid := Apply(BatchUpdateJobProgress(p), jobs);
      forall k | k in c && k in mid ensures FinalSize(mid[k], c[k]).Some? {
        ChoiceIsReport(p, ProgressOf(reports), reports, c[k]);
        assert k !in p;
      }
    }
    hide Completes;
    forall r | r in reports && r.jobId == id
      ensures PushBatch(jobs, p, c, f, uploadPending)[id] == Reported(jobs[id], r, uploadPending)
    {
      ChoiceIsReport(p, ProgressOf(reports), reports, r);
      ChoiceIsReport(c, CompletedOf(reports), reports, r);
      ChoiceIsReport(f, FailedOf(reports), reports, r);
    }
    if forall r :: r in reports ==> r.jobId != id {
      assert id !in p && id !in c && id !in f;
    }
  }

  /** With one report per job and all sizes known, a batch does what the reports do one by one. */
  lemma BatchIsEach(jobs: Jobs, reports: seq<StatusReport>, uploadPending: bool, after: Jobs)
    requires DistinctJobs(reports) && Pushed(jobs, reports, uploadPending, after)
    requires forall r :: r in reports && r.state == StateCompleted ==> SizeKnown(jobs, r)
    ensures after == PushEach(jobs, reports, uploadPending)
  {
    hide PushBatch, ChoiceOf, Reported, ProgressOf, CompletedOf, FailedOf, SizeKnown;
    var p, c, f :| ChoiceOf(p, ProgressOf(reports)) && ChoiceOf(c, CompletedOf(reports)) && ChoiceOf(f, FailedOf(reports))
      && after == PushBatch(jobs, p, c, f, uploadPending);
    var each := PushEach(jobs, reports, uploadPending);
    EachKeys(jobs, reports, uploadPending);
    BatchKeys(jobs, p, c, f, uploadPending);
    forall id | id in jobs ensures after[id] == each[id] {
      BatchRow(jobs, reports, p, c, f, uploadPending, id);
      EachRow(jobs, reports, uploadPending, id);
    }
  }

  lemma EachKeys(jobs: Jobs, reports: seq<StatusReport>, uploadPending: bool)
    ensures PushEach(jobs, reports, uploadPending).Keys == jobs.Keys
    decreases |reports|
  {
    hide Reported;
    if reports != [] {
      EachKeys(PushOne(jobs, reports[0], uploadPending), reports[1..], uploadPending);
    }
  }

  lemma BatchKeys(jobs: Jobs, p: Chosen, c: Chosen, f: Chosen, uploadPending: bool)
    ensures PushBatch(jobs, p, c, f, uploadPending).Keys == jobs.Keys
  {
  }

  /** The order of single pushes does not matter. */
  lemma OrderIsIrrelevant(jobs: Jobs, xs: seq<StatusReport>, ys: seq<StatusReport>, uploadPending: bool)
    requires DistinctJobs(xs) && DistinctJobs(ys) && multiset(xs) == multiset(ys)
    ensures PushEach(jobs, xs, uploadPending) == PushEach(jobs, ys, uploadPending)
  {
    hide Reported;
    EachKeys(jobs, xs, uploadPending);
    EachKeys(jobs, ys, uploadPending);
    assert forall r :: r in xs <==> r in multiset(xs);
    assert forall r :: r in ys <==> r in multiset(ys);
    forall id | id in jobs
      ensures PushEach(jobs, xs, uploadPending)[id] == PushEach(jobs, ys, uploadPending)[id]
    {
      EachRow(jobs, xs, uploadPending, id);
      EachRow(jobs, ys, uploadPending, id);
    }
  }

  // ---------- When the batch differs ----------

  lemma UnknownBlocks(jobs: Jobs, reports: seq<StatusReport>, p: Chosen, c: Chosen, bad: StatusReport)
    requires DistinctJobs(reports) && ChoiceOf(p, ProgressOf(reports)) && ChoiceOf(c, CompletedOf(reports))
    requires bad in reports && bad.state == StateCompleted && !SizeKnown(jobs, bad)
    ensures !Completes(jobs, p, c)
  {
    hide Progressed, Select, FinalSize;
    ChoiceIsReport(p, ProgressOf(reports), reports, bad);
    ChoiceIsReport(c, CompletedOf(reports), reports, bad);
    var mid := Apply(BatchUpdateJobProgress(p), jobs);
    assert bad.jobId in mid && mid[bad.jobId] == jobs[bad.jobId];
  }

  /** A completion of unknown size makes the batch of completions fail as a whole. */
  lemma UnknownSizeBlocks(jobs: Jobs, reports: seq<StatusReport>, uploadPending: bool, after: Jobs,
                          bad: StatusReport, good: StatusReport)
    requires DistinctJobs(reports)
    requires bad in reports && bad.state == StateCompleted && !SizeKnown(jobs, bad)
    requires good in reports && good.state == StateCompleted && good.jobId in jobs
    ensures Pushed(jobs, reports, uploadPending, after) ==>
              good.jobId in after && after[good.jobId] == jobs[good.jobId]
  {
    hide Progressed, Finished, FailedBy, Select, FinalSize, PushBatch;
    if !Pushed(jobs, reports, uploadPending, after) {
      return;
    }
    var p, c, f :| ChoiceOf(p, ProgressOf(reports)) && ChoiceOf(c, CompletedOf(reports)) && ChoiceOf(f, FailedOf(reports))
      && after == PushBatch(jobs, p, c, f, uploadPending);
    UnknownBlocks(jobs, reports, p, c, bad);
    hide Completes, SizeKnown;
    BatchByRow(jobs, p, c, f, uploadPending, good.jobId);
    ChoiceIsReport(p, ProgressOf(reports), reports, good);
    ChoiceIsReport(f, FailedOf(reports), reports, good);
  }

  /** The completion of an existing job. */
  predicate Completion(jobs: Jobs, r: StatusReport) {
    r.state == StateCompleted && r.jobId in jobs
  }

  /**
   The batch agrees with single pushes exactly when all its completions of existing jobs have a known size,
   or each one that has only repeats what the table already says.
   */
  lemma BatchIsEachExactly(jobs: Jobs, reports: seq<StatusReport>, uploadPending: bool, after: Jobs)
    requires DistinctJobs(reports) && Pushed(jobs, reports, uploadPending, after)
    ensures after == PushEach(jobs, reports, uploadPending) <==>
              || (forall r :: r in reports && Completion(jobs, r) ==> SizeKnown(jobs, r))
              || (forall r :: r in reports && Completion(jobs, r) && SizeKnown(jobs, r) ==>
                    Finished(jobs[r.jobId], r, uploadPending) == jobs[r.jobId])
  {
    hide PushBatch, PushEach, Pushed, DistinctJobs, Finished;
    if forall r :: r in reports && Completion(jobs, r) ==> SizeKnown(jobs, r) {
      BatchIsEach(jobs, reports, uploadPending, after);
    } else {
      var bad :| bad in reports && Completion(jobs, bad) && !SizeKnown(jobs, bad);
      if forall r :: r in reports && Completion(jobs, r) && SizeKnown(jobs, r) ==>
           Finished(jobs[r.jobId], r, uploadPending) == jobs[r.jobId] {
        AllRepeated(jobs, reports, uploadPending, after, bad);
      } else {
        var good :| good in reports && Completion(jobs, good) && SizeKnown(jobs, good)
                    && Finished(jobs[good.jobId], good, uploadPending) != jobs[good.jobId];
        UnknownSizeBlocks(jobs, reports, uploadPending, after, bad, good);
        EachRow(jobs, reports, uploadPending, good.jobId);
      }
    }
  }

  lemma BlockedRow(jobs: Jobs, reports: seq<StatusReport>, p: Chosen, c: Chosen, f: Chosen, uploadPending: bool, id: JobId)
    requires DistinctJobs(reports) && id in jobs
    requires ChoiceOf(p, ProgressOf(reports)) && ChoiceOf(c, CompletedOf(reports)) && ChoiceOf(f, FailedOf(reports))
    requires forall r :: r in reports && Completion(jobs, r) && SizeKnown(jobs, r) ==>
               Finished(jobs[r.jobId], r, uploadPending) == jobs[r.jobId]
    requires (exists r :: r in reports && Completion(jobs, r)) ==> !Completes(jobs, p, c)
    ensures forall r :: r in reports && r.jobId == id ==>
              PushBatch(jobs, p, c, f, uploadPending)[id] == Reported(jobs[id], r, uploadPending)
    ensures (forall r :: r in reports ==> r.jobId != id) ==> PushBatch(jobs, p, c, f, uploadPending)[id] == jobs[id]
  {
    hide Progressed, Finished, FailedBy, Select, FinalSize, PushBatch;
    BatchByRow(jobs, p, c, f, uploadPending, id);
    assert id in c ==> Completion(jobs, c[id]) && c[id] in reports;
    hide Completes;
    forall r | r in reports && r.jobId == id
      ensures PushBatch(jobs, p, c, f, uploadPending)[id] == Reported(jobs[id], r, uploadPending)
    {
      ChoiceIsReport(p, ProgressOf(reports), reports, r);
      ChoiceIsReport(c, CompletedOf(reports), reports, r);
      ChoiceIsReport(f, FailedOf(reports), reports, r);
      assert r.state == StateCompleted ==> Completion(jobs, r);
    }
  }

  lemma AllRepeated(jobs: Jobs, reports: seq<StatusReport>, uploadPending: bool, after: Jobs, bad: StatusReport)
    requires DistinctJobs(reports) && Pushed(jobs, reports, uploadPending, after)
    requires bad in reports && Completion(jobs, bad) && !SizeKnown(jobs, bad)
    requires forall r :: r in reports && Completion(jobs, r) && SizeKnown(jobs, r) ==>
               Finished(jobs[r.jobId], r, uploadPending) == jobs[r.jobId]
    ensures after == PushEach(jobs, reports, uploadPending)
  {
    hide PushBatch, ChoiceOf, Reported, ProgressOf, CompletedOf, FailedOf, SizeKnown, PushEach, Finished;
    var p, c, f :| ChoiceOf(p, ProgressOf(reports)) && ChoiceOf(c, CompletedOf(reports)) && ChoiceOf(f, FailedOf(reports))
      && after == PushBatch(jobs, p, c, f, uploadPending);
    EachKeys(jobs, reports, uploadPending);
    BatchKeys(jobs, p, c, f, uploadPending);
    UnknownBlocks(jobs, reports, p, c, bad);
    forall id | id in jobs ensures after[id] == PushEach(jobs, reports, uploadPending)[id] {
      BlockedRow(jobs, reports, p, c, f, uploadPending, id);
      EachRow(jobs, reports, uploadPending, id);
    }
  }

  /** PushOne is a push of a single report. */
  lemma PushOneIsPush(jobs: Jobs, r: StatusReport, uploadPending: bool, after: Jobs)
    requires Pushed(jobs, [r], uploadPending, after)
    ensures after == PushOne(jobs, r, uploadPending)
  {
    hide Pushed, PushOne, FinalSize, Finished;
    if r.state != StateCompleted || SizeKnown(jobs, r) {
      BatchIsEach(jobs, [r], uploadPending, after);
    } else {
      AllRepeated(jobs, [r], uploadPending, after, r);
    }
    assert [r][1..] == [];
    assert PushEach(jobs, [r], uploadPending) == PushEach(PushOne(jobs, r, uploadPending), [], uploadPending);
  }

  // ---------- What a push shows ----------

  /**
   The row shows the report: its progress as it is, a completion with its size, a failure with its error; a
   name or size that the report does not give stays, and so does everything else.
   */
  predicate Shows(before: Job, after: Job, r: StatusReport) {
    && after.nodeId == before.nodeId && after.engine == before.engine && after.url == before.url
    && after.storageKey == before.storageKey
    && match r.state
       case StateCompleted =>
         && after.status == Completed && after.progress == 100.0 && after.speed == 0
         && after.size == (if r.totalSize != 0 then Some(r.totalSize) else before.size)
         && after.size == Some(after.downloadedSize)
         && after.name == (if r.name != "" then r.name else before.name)
         && after.engineJobId == (if r.engineJobId != "" then Some(r.engineJobId) else before.engineJobId)
         && after.fileLocation == before.fileLocation && after.errorMessage == before.errorMessage
       case StateFailed =>
         && after.status == Failed && after.errorMessage == Some(r.error) && after.fileLocation == None
         && after.name == before.name && after.size == before.size && after.engineJobId == before.engineJobId
         && after.progress == before.progress && after.speed == before.speed
         && after.downloadedSize == before.downloadedSize && after.uploadStatus == before.uploadStatus
       case _ =>
         && after.status == Active
         && after.progress == r.progress && after.speed == r.speed && after.downloadedSize == r.downloadedSize
         && after.size == (if r.totalSize > 0 then Some(r.totalSize) else before.size)
         && after.name == (if r.name != "" then r.name else before.name)
         && after.engineJobId == (if r.engineJobId != "" then Some(r.engineJobId) else before.engineJobId)
         && after.fileLocation == before.fileLocation && after.errorMessage == before.errorMessage
         && after.uploadStatus == before.uploadStatus
  }

  /** A job with one report shows it after the push, unless a completion of unknown size stopped all completions. */
  lemma PushShows(jobs: Jobs, reports: seq<StatusReport>, uploadPending: bool, after: Jobs, r: StatusReport)
    requires r in reports && r.jobId in jobs
    requires forall x :: x in reports && x.jobId == r.jobId ==> x == r
    ensures Pushed(jobs, reports, uploadPending, after) ==>
              && r.jobId in after
              && var before, now := jobs[r.jobId], after[r.jobId];
                 && (Shows(before, now, r) || (r.state == StateCompleted && now == before))
                 && (r.state == StateCompleted && now != before ==>
                       now.uploadStatus == if uploadPending then UploadPending else before.uploadStatus)
                 && now.nodeId == before.nodeId && now.storageKey == before.storageKey
  {
    hide PushBatch, Completes, Select, SizeUnknown, Shows, BatchedRow;
    if !Pushed(jobs, reports, uploadPending, after) {
      return;
    }
    var p, c, f :| ChoiceOf(p, ProgressOf(reports)) && ChoiceOf(c, CompletedOf(reports)) && ChoiceOf(f, FailedOf(reports))
      && after == PushBatch(jobs, p, c, f, uploadPending);
    var id := r.jobId;
    BatchByRow(jobs, p, c, f, uploadPending, id);
    assert id in p ==> p[id] in ProgressOf(reports);
    assert id in c ==> c[id] in CompletedOf(reports);
    assert id in f ==> f[id] in FailedOf(reports);
    assert r in ProgressOf(reports) || r in CompletedOf(reports) || r in FailedOf(reports);
    var completes := Completes(jobs, p, c);
    assert completes && id in c && id !in p ==> FinalSize(jobs[id], c[id]).Some? by { CompletesKnown(jobs, p, c, id); }
    RowShows(jobs[id], id, p, c, f, completes, uploadPending, r);
  }

  lemma CompletesKnown(jobs: Jobs, p: Chosen, c: Chosen, id: JobId)
    requires id in jobs
    ensures Completes(jobs, p, c) && id in c && id !in p ==> FinalSize(jobs[id], c[id]).Some?
  {
    hide FinalSize, Progressed;
    assert id !in p ==> Apply(BatchUpdateJobProgress(p), jobs)[id] == jobs[id];
  }

  lemma RowShows(j: Job, id: JobId, p: Chosen, c: Chosen, f: Chosen, completes: bool, uploadPending: bool, r: StatusReport)
    requires id in p <==> !Terminal(r.state)
    requires id in c <==> r.state == StateCompleted
    requires id in f <==> r.state == StateFailed
    requires (id in p ==> p[id] == r) && (id in c ==> c[id] == r) && (id in f ==> f[id] == r)
    requires completes && id in c ==> FinalSize(j, r).Some?
    ensures var k := BatchedRow(j, id, p, c, f, completes, uploadPending);
            && (Shows(j, k, r) || (r.state == StateCompleted && k == j))
            && (r.state == StateCompleted && k != j ==>
                  k.uploadStatus == if uploadPending then UploadPending else j.uploadStatus)
            && k.nodeId == j.nodeId && k.storageKey == j.storageKey
  {
  }

  lemma PushLeavesOthers(jobs: Jobs, reports: seq<StatusReport>, uploadPending: bool, after: Jobs, id: JobId)
    requires Pushed(jobs, reports, uploadPending, after) && id in jobs
    requires forall x :: x in reports ==> x.jobId != id
    ensures id in after && after[id] == jobs[id]
  {
    hide PushBatch, Completes, Select;
    var p, c, f :| ChoiceOf(p, ProgressOf(reports)) && ChoiceOf(c, CompletedOf(reports)) && ChoiceOf(f, FailedOf(reports))
      && after == PushBatch(jobs, p, c, f, uploadPending);
    BatchByRow(jobs, p, c, f, uploadPending, id);
  }

  // ---------- What a push never forgets ----------

  /** A name, a positive size and an engine job ID, once known, stay known. */
  predicate KeepsKnown(before: Job, after: Job) {
    && (before.name != "" ==> after.name != "")
    && (before.size.Some? && before.size.value > 0 ==> after.size.Some? && after.size.value > 0)
    && (before.engineJobId.Some? ==> after.engineJobId.Some?)
  }

  lemma RowKeepsKnown(j: Job, id: JobId, p: Chosen, c: Chosen, f: Chosen, completes: bool, uploadPending: bool)
    requires id in c ==> c[id].totalSize >= 0
    ensures KeepsKnown(j, BatchedRow(j, id, p, c, f, completes, uploadPending))
  {
    var m := if id in p then Progressed(j, p[id]) else j;
    assert KeepsKnown(j, m);
    var d := if id in c && completes then Finished(m, c[id], uploadPending) else m;
    assert KeepsKnown(m, d);
  }

  lemma PushKeepsKnown(jobs: Jobs, reports: seq<StatusReport>, uploadPending: bool, after: Jobs, id: JobId)
    requires Pushed(jobs, reports, uploadPending, after) && id in jobs
    requires forall r :: r in reports ==> r.totalSize >= 0
    ensures id in after && KeepsKnown(jobs[id], after[id])
  {
    hide Select, PushBatch, Completes, BatchedRow, KeepsKnown;
    var p, c, f :| ChoiceOf(p, ProgressOf(reports)) && ChoiceOf(c, CompletedOf(reports)) && ChoiceOf(f, FailedOf(reports))
      && after == PushBatch(jobs, p, c, f, uploadPending);
    BatchByRow(jobs, p, c, f, uploadPending, id);
    assert id in c ==> c[id] in CompletedOf(reports);
    RowKeepsKnown(jobs[id], id, p, c, f, Completes(jobs, p, c), uploadPending);
  }
}
