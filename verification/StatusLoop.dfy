/**
 The status loop of a node (internal/core/statusloop/statusloop.go): the tracker of running jobs, and the
 poll that asks every engine once about its jobs and pairs the answers with the jobs again.
 */
module StatusLoop {
  import opened Wrappers
  import opened Reports

  datatype TrackedJob = TrackedJob(jobId: JobId, engine: string, engineJobId: string)

  type Tracked = map<JobId, TrackedJob>

  /** What each registered engine answers: statuses by engine job ID, or nothing when the query fails. */
  type Answers = map<string, Option<map<string, JobStatus>>>

  ghost predicate ByJobId(m: Tracked) {
    forall id :: id in m ==> m[id].jobId == id
  }

  /** The sequence holds every tracked job once. */
  ghost predicate Lists(jobs: seq<TrackedJob>, m: Tracked) {
    && (forall i :: 0 <= i < |jobs| ==> jobs[i].jobId in m && m[jobs[i].jobId] == jobs[i])
    && (forall id :: id in m ==> exists i :: 0 <= i < |jobs| && jobs[i].jobId == id)
    && (forall i, k :: 0 <= i < |jobs| && 0 <= k < |jobs| && jobs[i].jobId == jobs[k].jobId ==> i == k)
  }

  class Tracker {
    var jobs: Tracked

    ghost predicate Valid()
      reads this
    {
      ByJobId(jobs)
    }

    constructor ()
      ensures Valid() && jobs == map[]
    {
      jobs := map[];
    }

    method Add(jobId: JobId, engine: string, engineJobId: string)
      requires Valid()
      modifies this
      ensures Valid() && jobs == old(jobs)[jobId := TrackedJob(jobId, engine, engineJobId)]
    {
      jobs := jobs[jobId := TrackedJob(jobId, engine, engineJobId)];
    }

    method Remove(jobId: JobId)
      requires Valid()
      modifies this
      ensures Valid() && jobs == old(jobs) - {jobId}
    {
      jobs := jobs - {jobId};
    }

    /** A job that is no longer tracked stays so. */
    method UpdateEngineJobID(jobId: JobId, newEngineJobId: string)
      requires Valid()
      modifies this
      ensures Valid()
      ensures jobs == if jobId !in old(jobs) then old(jobs)
                      else old(jobs)[jobId := old(jobs)[jobId].(engineJobId := newEngineJobId)]
    {
      if jobId in jobs {
        var j := jobs[jobId];
        jobs := jobs[jobId := j.(engineJobId := newEngineJobId)];
      }
    }

    /** In any order, as a map is iterated. */
    method List() returns (result: seq<TrackedJob>)
      requires Valid()
      ensures Lists(result, jobs)
    {
      result := [];
      var rest := jobs.Keys;
      while rest != {}
        invariant rest <= jobs.Keys
        invariant forall i :: 0 <= i < |result| ==>
                    var id := result[i].jobId; id in jobs && id !in rest && jobs[id] == result[i]
        invariant forall id :: id in jobs && id !in rest ==> exists i :: 0 <= i < |result| && result[i].jobId == id
        invariant forall i, k :: 0 <= i < |result| && 0 <= k < |result| && result[i].jobId == result[k].jobId ==> i == k
        decreases rest
      {
        var id :| id in rest;
        ghost var before := result;
        result, rest := result + [jobs[id]], rest - {id};
        assert result[|before|].jobId == id;
        assert forall i :: 0 <= i < |before| ==> result[i] == before[i];
      }
    }
  }

  // ---------- What a poll does, job by job ----------

  /** The answer of the job's own engine about the job's own engine ID. */
  function AnswerFor(t: TrackedJob, answers: Answers): Option<JobStatus> {
    if t.engine in answers && answers[t.engine].Some? && t.engineJobId in answers[t.engine].value
    then Some(answers[t.engine].value[t.engineJobId]) else None
  }

  function ReportOf(jobId: JobId, s: JobStatus): StatusReport {
    StatusReport(jobId, s.engineJobId, s.state, s.progress, s.speed, s.totalSize, s.downloadedSize, s.name, s.error)
  }

  function ReportFor(t: TrackedJob, answers: Answers): Option<StatusReport> {
    var answer := AnswerFor(t, answers);
    if answer.Some? then Some(ReportOf(t.jobId, answer.value)) else None
  }

  /** The job's report is final. */
  predicate Ends(t: TrackedJob, answers: Answers) {
    var answer := AnswerFor(t, answers);
    answer.Some? && Terminal(answer.value.state)
  }

  /** The tracked entry under the listed job's ID, with the engine's new ID for it if there is one. */
  function HandOver(now: TrackedJob, t: TrackedJob, answers: Answers): TrackedJob {
    var answer := AnswerFor(t, answers);
    if answer.Some? && answer.value.engineJobId != "" && answer.value.engineJobId != t.engineJobId
    then now.(engineJobId := answer.value.engineJobId) else now
  }

  /** The tracker after a poll of the listed jobs: finished jobs are gone, superseded engine IDs replaced. */
  function AfterPoll(now: Tracked, listed: Tracked, answers: Answers): Tracked {
    map id | id in now && !(id in listed && Ends(listed[id], answers)) ::
      if id in listed then HandOver(now[id], listed[id], answers) else now[id]
  }

  /** Exactly one report for each listed job whose engine answered, with its own status. */
  ghost predicate ReportsAll(reports: seq<StatusReport>, listed: Tracked, answers: Answers) {
    && (forall i :: 0 <= i < |reports| ==>
          var id := reports[i].jobId; id in listed && ReportFor(listed[id], answers) == Some(reports[i]))
    && (forall id :: id in listed && AnswerFor(listed[id], answers).Some? ==>
          exists i :: 0 <= i < |reports| && reports[i].jobId == id)
    && (forall i, k :: 0 <= i < |reports| && 0 <= k < |reports| && reports[i].jobId == reports[k].jobId ==> i == k)
  }

  /** The report carries what the engine said about the job's own engine ID, field by field. */
  ghost predicate CarriesAnswer(r: StatusReport, listed: Tracked, answers: Answers) {
    && r.jobId in listed
    && var t := listed[r.jobId];
       && t.engine in answers && answers[t.engine].Some? && t.engineJobId in answers[t.engine].value
       && var st := answers[t.engine].value[t.engineJobId];
          && r.engineJobId == st.engineJobId && r.state == st.state && r.name == st.name && r.error == st.error
          && r.progress == st.progress && r.speed == st.speed
          && r.totalSize == st.totalSize && r.downloadedSize == st.downloadedSize
  }

  lemma ReportsCarryAnswers(reports: seq<StatusReport>, listed: Tracked, answers: Answers)
    requires ReportsAll(reports, listed, answers)
    ensures forall i :: 0 <= i < |reports| ==> CarriesAnswer(reports[i], listed, answers)
  {
  }

  /**
   What a poll does to a tracked job, in terms of the engine's answer alone: without an answer nothing, after
   a completion or failure it is gone, else it goes on under the ID in the answer, if there is one.
   */
  lemma TrackedAfterPoll(now: Tracked, listed: Tracked, answers: Answers, id: JobId)
    requires id in now
    ensures var next := AfterPoll(now, listed, answers);
            if id !in listed then id in next && next[id] == now[id]
            else
              var t := listed[id];
              if !(t.engine in answers && answers[t.engine].Some? && t.engineJobId in answers[t.engine].value)
              then id in next && next[id] == now[id]
              else
                var st := answers[t.engine].value[t.engineJobId];
                && (id !in next <==> st.state == StateCompleted || st.state == StateFailed)
                && (id in next ==>
                      && next[id].jobId == now[id].jobId && next[id].engine == now[id].engine
                      && next[id].engineJobId == if st.engineJobId == "" || st.engineJobId == t.engineJobId
                                                 then now[id].engineJobId else st.engineJobId)
  {
  }

  /** Polls of disjoint sets of jobs do not interfere: one after the other they are one poll of both. */
  lemma PollsJoin(now: Tracked, a: Tracked, b: Tracked, answers: Answers)
    requires a.Keys !! b.Keys
    ensures AfterPoll(AfterPoll(now, a, answers), b, answers) == AfterPoll(now, a + b, answers)
  {
    hide AnswerFor;
  }

  /** So engines that are polled at the same time may update the tracker in any order. */
  lemma PollsCommute(now: Tracked, a: Tracked, b: Tracked, answers: Answers)
    requires a.Keys !! b.Keys
    ensures AfterPoll(AfterPoll(now, a, answers), b, answers) == AfterPoll(AfterPoll(now, b, answers), a, answers)
  {
    hide AfterPoll;
    PollsJoin(now, a, b, answers);
    PollsJoin(now, b, a, answers);
    assert a + b == b + a;
  }

  lemma ReportsJoin(xs: seq<StatusReport>, ys: seq<StatusReport>, a: Tracked, b: Tracked, answers: Answers)
    requires a.Keys !! b.Keys && ReportsAll(xs, a, answers) && ReportsAll(ys, b, answers)
    ensures ReportsAll(xs + ys, a + b, answers)
  {
    hide AnswerFor;
    var r := xs + ys;
    forall id | id in a + b && AnswerFor((a + b)[id], answers).Some?
      ensures exists i :: 0 <= i < |r| && r[i].jobId == id
    {
      if id in b {
        var i :| 0 <= i < |ys| && ys[i].jobId == id;
        assert r[|xs| + i].jobId == id;
      } else {
        var i :| 0 <= i < |xs| && xs[i].jobId == id;
        assert r[i].jobId == id;
      }
    }
  }

  // ---------- Grouping ----------

  /** Parallel columns: the i-th engine ID belongs to the i-th job ID. */
  datatype Group = Group(engineJobIds: seq<string>, jobIds: seq<JobId>)

  /** The listed jobs of one engine. */
  function OfEngine(listed: Tracked, engine: string): Tracked {
    map id | id in listed && listed[id].engine == engine :: listed[id]
  }

  function OfEngines(listed: Tracked, engines: set<string>): Tracked {
    map id | id in listed && listed[id].engine in engines :: listed[id]
  }

  /** The columns hold every one of these jobs once, row by row. */
  ghost predicate Groups(g: Group, engine: string, part: Tracked) {
    |g.engineJobIds| == |g.jobIds| && Lists(Rows(g, engine), part)
  }

  ghost function Rows(g: Group, engine: string): seq<TrackedJob>
    requires |g.engineJobIds| == |g.jobIds|
  {
    seq(|g.jobIds|, i requires 0 <= i < |g.jobIds| => TrackedJob(g.jobIds[i], engine, g.engineJobIds[i]))
  }

  lemma ListsOneMore(jobs: seq<TrackedJob>, m: Tracked, j: TrackedJob)
    requires Lists(jobs, m) && j.jobId !in m
    ensures Lists(jobs + [j], m[j.jobId := j])
  {
    var r := jobs + [j];
    assert r[|jobs|] == j;
    forall id | id in m ensures exists i :: 0 <= i < |r| && r[i].jobId == id {
      var i :| 0 <= i < |jobs| && jobs[i].jobId == id;
      assert r[i].jobId == id;
    }
  }

  method GroupByEngine(jobs: seq<TrackedJob>, ghost listed: Tracked) returns (groups: map<string, Group>)
    requires Lists(jobs, listed)
    ensures forall e :: e in groups ==> Groups(groups[e], e, OfEngine(listed, e))
    ensures forall id :: id in listed ==> listed[id].engine in groups
  {
    hide Lists;
    groups := map[];
    ghost var done: Tracked := map[];
    assert jobs[..0] == [] && Lists([], done) by { NothingPolled(map[], map[]); }
    for i := 0 to |jobs|
      invariant Lists(jobs[..i], done)
      invariant forall e :: e in groups ==> Groups(groups[e], e, OfEngine(done, e))
      invariant forall e :: e !in groups ==> OfEngine(done, e) == map[]
    {
      var j := jobs[i];
      assert j.jobId !in done by { NotListedYet(jobs, listed, done, i); }
      var g := if j.engine in groups then groups[j.engine] else Group([], []);
      assert Groups(g, j.engine, OfEngine(done, j.engine)) by { EmptyGroup(j.engine); }
      GroupOneMore(g, j, OfEngine(done, j.engine));
      groups := groups[j.engine := Group(g.engineJobIds + [j.engineJobId], g.jobIds + [j.jobId])];
      ListsOneMore(jobs[..i], done, j);
      assert jobs[..i + 1] == jobs[..i] + [j];
      EngineOneMore(done, j);
      done := done[j.jobId := j];
    }
    assert jobs[..|jobs|] == jobs;
    ListsOneMap(jobs, done, listed);
    forall id | id in listed ensures listed[id].engine in groups {
      assert id in OfEngine(listed, listed[id].engine);
    }
  }

  lemma NotListedYet(jobs: seq<TrackedJob>, listed: Tracked, done: Tracked, i: nat)
    requires Lists(jobs, listed) && i < |jobs| && Lists(jobs[..i], done)
    ensures jobs[i].jobId !in done
  {
    assert forall k :: 0 <= k < i ==> jobs[..i][k] == jobs[k] && jobs[k].jobId != jobs[i].jobId;
  }

  lemma ListsOneMap(jobs: seq<TrackedJob>, m: Tracked, n: Tracked)
    requires Lists(jobs, m) && Lists(jobs, n)
    ensures m == n
  {
    assert m.Keys == n.Keys;
  }

  lemma EmptyGroup(engine: string)
    ensures Groups(Group([], []), engine, map[])
  {
  }

  lemma EngineOneMore(done: Tracked, j: TrackedJob)
    requires j.jobId !in done
    ensures OfEngine(done[j.jobId := j], j.engine) == OfEngine(done, j.engine)[j.jobId := j]
    ensures forall e :: e != j.engine ==> OfEngine(done[j.jobId := j], e) == OfEngine(done, e)
  {
  }

  lemma GroupOneMore(g: Group, j: TrackedJob, part: Tracked)
    requires Groups(g, j.engine, part) && j.jobId !in part
    ensures Groups(Group(g.engineJobIds + [j.engineJobId], g.jobIds + [j.jobId]), j.engine, part[j.jobId := j])
  {
    var h := Group(g.engineJobIds + [j.engineJobId], g.jobIds + [j.jobId]);
    ListsOneMore(Rows(g, j.engine), part, j);
    assert Rows(h, j.engine) == Rows(g, j.engine) + [j];
  }

  // ---------- The poll ----------

  /** One engine's part: reports in column order, and the tracker updates that go with them. */
  method PollEngine(engine: string, g: Group, ghost part: Tracked, answers: Answers, tracker: Tracker)
    returns (reports: seq<StatusReport>)
    requires Groups(g, engine, part) && tracker.Valid()
    modifies tracker
    ensures tracker.Valid() && tracker.jobs == AfterPoll(old(tracker.jobs), part, answers)
    ensures ReportsAll(reports, part, answers)
  {
    hide ReportsAll, AfterPoll, Lists, Ends, HandOver, Rows, AnswerFor;
    ghost var start, rows := tracker.jobs, Rows(g, engine);
    reports := [];
    if engine !in answers || answers[engine].None? {
      NoAnswers(start, part, answers, engine) by { RowsOfEngine(g, engine, part); }
      return;
    }
    var statuses := answers[engine].value;
    ghost var done: Tracked := map[];
    NothingPolled(start, answers);
    assert |rows| == |g.jobIds| by { RowCount(g, engine); }
    assert rows[..0] == [];
    for j := 0 to |g.engineJobIds|
      invariant tracker.Valid() && Lists(rows[..j], done)
      invariant tracker.jobs == AfterPoll(start, done, answers)
      invariant ReportsAll(reports, done, answers)
    {
      var engineJobId := g.engineJobIds[j];
      ghost var t := TrackedJob(g.jobIds[j], engine, engineJobId);
      ghost var before, once := tracker.jobs, map[t.jobId := t];
      assert rows[j] == t by { RowAt(g, engine, j); }
      NotListedYet(rows, part, done, j);
      ListsOneMore(rows[..j], done, t);
      assert rows[..j + 1] == rows[..j] + [t];
      PollsJoin(start, done, once, answers);
      assert done + once == done[t.jobId := t];
      OneAnswer(t, answers, before);
      if engineJobId !in statuses {
        ReportsJoin(reports, [], done, once, answers);
        assert reports + [] == reports;
        done := done[t.jobId := t];
        continue;
      }
      var status := statuses[engineJobId];
      if status.engineJobId != "" && status.engineJobId != engineJobId {
        tracker.UpdateEngineJobID(g.jobIds[j], status.engineJobId);
      }
      ReportsJoin(reports, [ReportOf(g.jobIds[j], status)], done, once, answers);
      reports := reports + [ReportOf(g.jobIds[j], status)];
      if status.state == StateCompleted || status.state == StateFailed {
        tracker.Remove(g.jobIds[j]);
      }
      done := done[t.jobId := t];
    }
    assert rows[..|rows|] == rows;
    ListsOneMap(rows, done, part);
  }

  lemma RowCount(g: Group, engine: string)
    requires |g.engineJobIds| == |g.jobIds|
    ensures |Rows(g, engine)| == |g.jobIds|
  {
  }

  lemma RowAt(g: Group, engine: string, j: nat)
    requires |g.engineJobIds| == |g.jobIds| && j < |g.jobIds|
    ensures |Rows(g, engine)| == |g.jobIds| && Rows(g, engine)[j] == TrackedJob(g.jobIds[j], engine, g.engineJobIds[j])
  {
  }

  lemma RowsOfEngine(g: Group, engine: string, part: Tracked)
    requires Groups(g, engine, part)
    ensures forall id :: id in part ==> part[id].engine == engine
  {
  }

  lemma NothingPolled(start: Tracked, answers: Answers)
    ensures AfterPoll(start, map[], answers) == start && ReportsAll([], map[], answers)
    ensures Lists([], map[])
  {
  }

  lemma NoAnswers(start: Tracked, part: Tracked, answers: Answers, engine: string)
    requires forall id :: id in part ==> part[id].engine == engine
    requires engine !in answers || answers[engine].None?
    ensures AfterPoll(start, part, answers) == start && ReportsAll([], part, answers)
  {
  }

  /** A poll of one job: the tracker calls and the report the loop body makes for it. */
  lemma OneAnswer(t: TrackedJob, answers: Answers, now: Tracked)
    requires t.engine in answers && answers[t.engine].Some?
    ensures var once, statuses := map[t.jobId := t], answers[t.engine].value;
            if t.engineJobId !in statuses
            then AfterPoll(now, once, answers) == now && ReportsAll([], once, answers)
            else
              var s := statuses[t.engineJobId];
              var renamed := if s.engineJobId != "" && s.engineJobId != t.engineJobId && t.jobId in now
                             then now[t.jobId := now[t.jobId].(engineJobId := s.engineJobId)] else now;
              && AfterPoll(now, once, answers) == (if Terminal(s.state) then renamed - {t.jobId} else renamed)
              && ReportsAll([ReportOf(t.jobId, s)], once, answers)
  {
    if t.engineJobId in answers[t.engine].value {
      assert [ReportOf(t.jobId, answers[t.engine].value[t.engineJobId])][0].jobId == t.jobId;
    }
  }

  /** Reports in any order of engines; `listed` is the tracker as it was when the jobs were listed. */
  method Poll(jobs: seq<TrackedJob>, ghost listed: Tracked, answers: Answers, tracker: Tracker)
    returns (result: seq<StatusReport>)
    requires Lists(jobs, listed) && tracker.Valid()
    modifies tracker
    ensures tracker.Valid() && tracker.jobs == AfterPoll(old(tracker.jobs), listed, answers)
    ensures ReportsAll(result, listed, answers)
    ensures forall i :: 0 <= i < |result| ==> CarriesAnswer(result[i], listed, answers)
  {
    hide ReportsAll, AfterPoll, Lists, Groups, CarriesAnswer, OfEngines, OfEngine;
    ghost var start := tracker.jobs;
    var groups := GroupByEngine(jobs, listed);
    result := [];
    var rest := groups.Keys;
    NothingPolled(start, answers);
    assert OfEngines(listed, groups.Keys - rest) == map[] by { NoEngines(listed, groups.Keys - rest); }
    while rest != {}
      invariant rest <= groups.Keys && tracker.Valid()
      invariant tracker.jobs == AfterPoll(start, OfEngines(listed, groups.Keys - rest), answers)
      invariant ReportsAll(result, OfEngines(listed, groups.Keys - rest), answers)
      decreases rest
    {
      var engineName :| engineName in rest;
      ghost var done, part := OfEngines(listed, groups.Keys - rest), OfEngine(listed, engineName);
      var reports := PollEngine(engineName, groups[engineName], part, answers, tracker);
      EnginesJoin(listed, groups.Keys - rest, engineName);
      PollsJoin(start, done, part, answers);
      ReportsJoin(result, reports, done, part, answers);
      assert groups.Keys - (rest - {engineName}) == (groups.Keys - rest) + {engineName};
      result, rest := result + reports, rest - {engineName};
    }
    assert OfEngines(listed, groups.Keys - rest) == listed by { AllEngines(listed, groups.Keys - rest); }
    ReportsCarryAnswers(result, listed, answers);
  }

  lemma NoEngines(listed: Tracked, engines: set<string>)
    requires engines == {}
    ensures OfEngines(listed, engines) == map[]
  {
  }

  lemma AllEngines(listed: Tracked, engines: set<string>)
    requires forall id :: id in listed ==> listed[id].engine in engines
    ensures OfEngines(listed, engines) == listed
  {
  }

  lemma EnginesJoin(listed: Tracked, engines: set<string>, engine: string)
    requires engine !in engines
    ensures OfEngines(listed, engines).Keys !! OfEngine(listed, engine).Keys
    ensures OfEngines(listed, engines) + OfEngine(listed, engine) == OfEngines(listed, engines + {engine})
  {
  }
}
