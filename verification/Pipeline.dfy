/**
 A worker node's status pipeline: dispatches and cancellations (internal/core/node/server.go) change the
 tracker while the status loop lists, polls and pushes. Every dispatch is accounted for in every run.
 */
module Pipeline {
  import opened Wrappers
  import opened Reports
  import opened Strings
  import opened Tables
  import opened Push
  import opened StatusLoop
  import opened Sink
  import DownloadSteps
  import OutcomesOfAdd

  // ---------- The pipeline as a state machine ----------

  /** Where the loop is; requests to the node arrive at any point. */
  datatype Loop = Waiting | Listed(jobs: Tracked) | Polled(reports: seq<StatusReport>)

  /** `displaced` counts dispatches of a tracked job, `late` final reports on a job no longer tracked. */
  datatype Pipe = Pipe(
    tracked: Tracked, loop: Loop, sink: SinkState,
    dispatched: multiset<JobId>, displaced: multiset<JobId>, cancelled: multiset<JobId>, late: multiset<JobId>)

  const START := Pipe(map[], Waiting, EMPTY_SINK, multiset{}, multiset{}, multiset{}, multiset{})

  datatype Step =
    | Dispatch(job: TrackedJob)
    | Cancel(id: JobId)
    | List
    | Poll(answers: Answers, reports: seq<StatusReport>)
    | Push(accepted: bool)

  /** The loop takes its steps in turn; a poll may return its reports in any order. */
  ghost predicate Enabled(s: Pipe, step: Step) {
    match step
    case Dispatch(_) => true
    case Cancel(_) => true
    case List => s.loop.Waiting? && s.tracked != map[]
    case Poll(answers, reports) => s.loop.Listed? && ReportsAll(reports, s.loop.jobs, answers)
    case Push(_) => s.loop.Polled?
  }

  function Ended(listed: Tracked, answers: Answers): set<JobId> {
    set id | id in listed && Ends(listed[id], answers)
  }

  function After(s: Pipe, step: Step): Pipe {
    match step
    case Dispatch(job) =>
      s.(tracked := s.tracked[job.jobId := job],
         dispatched := s.dispatched + multiset{job.jobId},
         displaced := if job.jobId in s.tracked then s.displaced + multiset{job.jobId} else s.displaced)
    case Cancel(id) =>
      s.(tracked := s.tracked - {id},
         cancelled := if id in s.tracked then s.cancelled + multiset{id} else s.cancelled)
    case List => s.(loop := Listed(s.tracked))
    case Poll(answers, reports) =>
      if !s.loop.Listed? then s else
      s.(tracked := AfterPoll(s.tracked, s.loop.jobs, answers),
         loop := if reports == [] then Waiting else Polled(reports),
         late := s.late + multiset(Ended(s.loop.jobs, answers) - s.tracked.Keys))
    case Push(accepted) =>
      if !s.loop.Polled? then s else
      s.(loop := Waiting, sink := AfterPush(s.sink, s.loop.reports, accepted))
  }

  function RunOf(s: Pipe, steps: seq<Step>): Pipe
    decreases |steps|
  {
    if steps == [] then s else RunOf(After(s, steps[0]), steps[1..])
  }

  ghost predicate Possible(s: Pipe, steps: seq<Step>)
    decreases |steps|
  {
    steps != [] ==> Enabled(s, steps[0]) && Possible(After(s, steps[0]), steps[1..])
  }

  // ---------- Conservation ----------

  /** How many of the reports are about the job. */
  function Count(reports: seq<StatusReport>, id: JobId): nat {
    if reports == [] then 0
    else Count(reports[..|reports| - 1], id) + (if reports[|reports| - 1].jobId == id then 1 else 0)
  }

  /** Final reports of the last poll that are not pushed yet. */
  function InFlight(l: Loop): seq<StatusReport> {
    if l.Polled? then TerminalOf(l.reports) else []
  }

  /** How many reports about the job were delivered, or dropped. */
  function Settlements(log: seq<Settled>, fate: Fate, id: JobId): nat {
    if log == [] then 0
    else
      var last := log[|log| - 1];
      Settlements(log[..|log| - 1], fate, id) + (if last == Settled(last.report, fate) && last.report.jobId == id then 1 else 0)
  }

  /** In how many places of the sink reports about the job are, or were left. */
  function InSink(s: SinkState, id: JobId): nat {
    Count(s.buffer, id) + Settlements(s.log, Delivered, id) + Settlements(s.log, Dropped, id)
  }

  function One(b: bool): nat {
    if b then 1 else 0
  }

  /** How many dispatches of the job are accounted for. */
  function Places(s: Pipe, id: JobId): nat {
    One(id in s.tracked) + s.displaced[id] + s.cancelled[id] + Count(InFlight(s.loop), id) + InSink(s.sink, id)
  }

  /**
   Every dispatch is in one place: still tracked, replaced by a later dispatch of the same job, cancelled,
   or reported as final; and every final report is being pushed, buffered, delivered or dropped.
   */
  predicate Conserved(s: Pipe, id: JobId) {
    s.dispatched[id] + s.late[id] == Places(s, id)
  }

  lemma {:induction false} CountJoin(xs: seq<StatusReport>, ys: seq<StatusReport>, id: JobId)
    ensures Count(xs + ys, id) == Count(xs, id) + Count(ys, id)
    decreases |ys|
  {
    if ys == [] {
      assert xs + ys == xs;
    } else {
      assert (xs + ys)[..|xs + ys| - 1] == xs + ys[..|ys| - 1];
      CountJoin(xs, ys[..|ys| - 1], id);
    }
  }

  lemma {:induction false} Settling(log: seq<Settled>, reports: seq<StatusReport>, fate: Fate, other: Fate, id: JobId)
    ensures Settlements(log + Settle(reports, fate), other, id)
         == Settlements(log, other, id) + (if other == fate then Count(reports, id) else 0)
    decreases |reports|
  {
    var after := log + Settle(reports, fate);
    if reports == [] {
      assert after == log;
    } else {
      var before := reports[..|reports| - 1];
      Settling(log, before, fate, other, id);
      assert after[..|after| - 1] == log + Settle(before, fate);
    }
  }

  ghost predicate Distinct(reports: seq<StatusReport>) {
    forall i, k :: 0 <= i < |reports| && 0 <= k < |reports| && reports[i].jobId == reports[k].jobId ==> i == k
  }

  ghost predicate EndsAmong(reports: seq<StatusReport>, id: JobId) {
    exists i :: 0 <= i < |reports| && reports[i].jobId == id && Terminal(reports[i].state)
  }

  lemma {:induction false} CountDistinct(reports: seq<StatusReport>, id: JobId)
    requires Distinct(reports)
    ensures Count(TerminalOf(reports), id) == One(EndsAmong(reports, id))
  {
    hide TerminalOf, EndsAmong;
    if reports == [] {
      NothingSelected();
      assert !EndsAmong([], id) by { NoneEnds(id); }
    } else {
      var before, last := reports[..|reports| - 1], reports[|reports| - 1];
      assert reports == before + [last];
      CountDistinct(before, id);
      TerminalLast(before, last, id);
      EndsAmongLast(before, last, id);
    }
  }

  lemma NoneEnds(id: JobId)
    ensures !EndsAmong([], id)
  {
  }

  lemma TerminalLast(before: seq<StatusReport>, last: StatusReport, id: JobId)
    ensures Count(TerminalOf(before + [last]), id)
         == Count(TerminalOf(before), id) + One(Terminal(last.state) && last.jobId == id)
  {
    hide Select;
    SelectLast(before, last, (x: StatusReport) => Terminal(x.state));
    CountJoin(TerminalOf(before), if Terminal(last.state) then [last] else [], id);
    assert [last][..0] == [];
  }

  lemma EndsAmongLast(before: seq<StatusReport>, last: StatusReport, id: JobId)
    requires Distinct(before + [last])
    ensures Distinct(before)
    ensures One(EndsAmong(before + [last], id))
         == One(EndsAmong(before, id)) + One(Terminal(last.state) && last.jobId == id)
  {
    var reports := before + [last];
    assert forall i :: 0 <= i < |before| ==> before[i] == reports[i];
    assert reports[|before|] == last;
    if EndsAmong(before, id) {
      var i :| 0 <= i < |before| && before[i].jobId == id && Terminal(before[i].state);
      assert reports[i].jobId == id && reports[i].jobId != last.jobId;
    }
  }

  /** Final reports in a poll's result: one for each job that ended. */
  lemma EndedAreReported(reports: seq<StatusReport>, listed: Tracked, answers: Answers, id: JobId)
    requires ReportsAll(reports, listed, answers)
    ensures Count(TerminalOf(reports), id) == One(id in Ended(listed, answers))
  {
    hide AnswerFor, Select, Count;
    CountDistinct(reports, id);
    if id in Ended(listed, answers) {
      var i :| 0 <= i < |reports| && reports[i].jobId == id;
      assert Terminal(reports[i].state);
    }
  }

  lemma PollConserves(s: Pipe, answers: Answers, reports: seq<StatusReport>, id: JobId)
    requires Conserved(s, id) && Enabled(s, Poll(answers, reports))
    ensures Conserved(After(s, Poll(answers, reports)), id)
  {
    hide ReportsAll, HandOver, Ends, TerminalOf, InSink;
    EndedAreReported(reports, s.loop.jobs, answers, id);
    assert reports == [] ==> TerminalOf(reports) == [] by { NothingSelected(); }
  }

  lemma PushConserves(s: Pipe, accepted: bool, id: JobId)
    requires Conserved(s, id) && Enabled(s, Push(accepted))
    ensures Conserved(After(s, Push(accepted)), id)
  {
    hide TerminalOf, InSink;
    SinkConserves(s.sink, s.loop.reports, accepted, id);
  }

  lemma SinkConserves(s: SinkState, reports: seq<StatusReport>, accepted: bool, id: JobId)
    ensures InSink(AfterPush(s, reports, accepted), id) == InSink(s, id) + Count(TerminalOf(reports), id)
  {
    hide TerminalOf, Settlements, Settle;
    var pending := s.buffer + TerminalOf(reports);
    CountJoin(s.buffer, TerminalOf(reports), id);
    var k := if accepted then |pending| else Excess(pending);
    var fate := if accepted then Delivered else Dropped;
    assert pending == pending[..k] + pending[k..];
    CountJoin(pending[..k], pending[k..], id);
    Settling(s.log, pending[..k], fate, Delivered, id);
    Settling(s.log, pending[..k], fate, Dropped, id);
    assert accepted ==> pending[..k] == pending;
  }

  lemma RequestConserves(s: Pipe, step: Step, id: JobId)
    requires Conserved(s, id) && (step.Dispatch? || step.Cancel? || step.List?) && Enabled(s, step)
    ensures Conserved(After(s, step), id)
  {
    hide TerminalOf, InSink;
  }

  /** In every run, with any answers of the engines and any failures of pushes, every dispatch is accounted for. */
  lemma {:induction false} RunConserves(s: Pipe, steps: seq<Step>, id: JobId)
    requires Conserved(s, id) && Possible(s, steps)
    ensures Conserved(RunOf(s, steps), id)
    decreases |steps|
  {
    hide Conserved, After, Enabled;
    if steps != [] {
      var step := steps[0];
      match step {
        case Poll(answers, reports) => PollConserves(s, answers, reports, id);
        case Push(accepted) => PushConserves(s, accepted, id);
        case _ => RequestConserves(s, step, id);
      }
      RunConserves(After(s, step), steps[1..], id);
    }
  }

  // ---------- When nothing is cancelled during a poll ----------

  /** No job is cancelled between being listed and being polled. */
  ghost predicate Calm(s: Pipe, steps: seq<Step>)
    decreases |steps|
  {
    steps != [] ==> (steps[0].Cancel? ==> !s.loop.Listed?) && Calm(After(s, steps[0]), steps[1..])
  }

  lemma {:induction false} CalmIsNeverLate(s: Pipe, steps: seq<Step>)
    requires s.late == multiset{} && (s.loop.Listed? ==> s.loop.jobs.Keys <= s.tracked.Keys)
    requires Possible(s, steps) && Calm(s, steps)
    ensures RunOf(s, steps).late == multiset{}
    decreases |steps|
  {
    hide ReportsAll, Ends;
    if steps != [] {
      if steps[0].Poll? {
        assert Ended(s.loop.jobs, steps[0].answers) - s.tracked.Keys == {};
      }
      CalmIsNeverLate(After(s, steps[0]), steps[1..]);
    }
  }

  /** From the start nothing is lost: with no late reports, each dispatch is in exactly one place. */
  lemma NothingIsLost(steps: seq<Step>, id: JobId)
    requires Possible(START, steps)
    ensures var s := RunOf(START, steps); s.dispatched[id] + s.late[id] == Places(s, id)
    ensures Calm(START, steps) ==> RunOf(START, steps).dispatched[id] == Places(RunOf(START, steps), id)
  {
    hide Places, RunOf, Possible, Calm;
    assert Conserved(START, id) by { NothingYet(id); }
    RunConserves(START, steps, id);
    if Calm(START, steps) {
      CalmIsNeverLate(START, steps);
    }
  }

  lemma NothingYet(id: JobId)
    ensures Places(START, id) == 0
  {
  }

  // ---------- Requests between listing and polling ----------

  function Current(now: Tracked, listed: Tracked): Tracked {
    map id | id in listed && id in now && now[id] == listed[id] :: listed[id]
  }

  /** No listed job is now tracked as something else. */
  predicate NoneReplaced(now: Tracked, listed: Tracked) {
    forall id :: id in now && id in listed ==> now[id] == listed[id]
  }

  /** The answer of one engine about one ID. */
  function OneStatus(t: TrackedJob, s: JobStatus): Answers {
    map[t.engine := Some(map[t.engineJobId := s])]
  }

  const ENDED := JobStatus("", "", StateFailed, 0.0, 0, 0, 0, "")

  /**
   A poll acts on the job ID, whatever has become of the job since it was listed. Whatever engines may
   answer, it leaves newer entries alone exactly when there are none.
   */
  lemma PollActsOnListedExactly(now: Tracked, listed: Tracked)
    ensures (forall answers :: AfterPoll(now, listed, answers) == AfterPoll(now, Current(now, listed), answers))
       <==> NoneReplaced(now, listed)
  {
    if NoneReplaced(now, listed) {
      forall answers ensures AfterPoll(now, listed, answers) == AfterPoll(now, Current(now, listed), answers) {
        hide AnswerFor;
      }
    } else {
      var id :| id in now && id in listed && now[id] != listed[id];
      var answers := OneStatus(listed[id], ENDED);
      assert id !in AfterPoll(now, listed, answers);
      assert id in AfterPoll(now, Current(now, listed), answers);
    }
  }

  /** Whatever leaves the tracker had its own final answer. */
  predicate RemovesOnlyEnded(now: Tracked, after: Tracked, answers: Answers) {
    forall id :: id in now && id !in after ==> Ends(now[id], answers)
  }

  lemma RemovesOnlyEndedExactly(now: Tracked, listed: Tracked)
    requires ByJobId(now) && ByJobId(listed)
    ensures (forall answers :: RemovesOnlyEnded(now, AfterPoll(now, listed, answers), answers))
       <==> NoneReplaced(now, listed)
  {
    if NoneReplaced(now, listed) {
      hide Ends, HandOver;
    } else {
      var id :| id in now && id in listed && now[id] != listed[id];
      var answers := OneStatus(listed[id], ENDED);
      assert id !in AfterPoll(now, listed, answers) && !Ends(now[id], answers);
    }
  }

  predicate IsRequest(step: Step) {
    step.Dispatch? || step.Cancel?
  }

  predicate Concerns(step: Step, id: JobId) {
    (step.Dispatch? && step.job.jobId == id) || (step.Cancel? && step.id == id)
  }

  /** Request i is the last one about the job. */
  predicate IsLast(steps: seq<Step>, i: int, id: JobId) {
    0 <= i < |steps| && Concerns(steps[i], id) && forall k :: i < k < |steps| ==> !Concerns(steps[k], id)
  }

  /** The last request about some listed job dispatches it as something else. */
  predicate Redispatched(listed: Tracked, steps: seq<Step>) {
    exists i :: 0 <= i < |steps| && steps[i].Dispatch?
      && IsLast(steps, i, steps[i].job.jobId)
      && steps[i].job.jobId in listed && listed[steps[i].job.jobId] != steps[i].job
  }

  lemma {:induction false} RunOfThen(s: Pipe, steps: seq<Step>, last: Step)
    ensures RunOf(s, steps + [last]) == After(RunOf(s, steps), last)
    decreases |steps|
  {
    hide After;
    if steps == [] {
      assert steps + [last] == [last];
      OneStep(s, last);
    } else {
      assert (steps + [last])[1..] == steps[1..] + [last];
      RunOfThen(After(s, steps[0]), steps[1..], last);
    }
  }

  /** The index of the last step about the job, or -1. */
  function LastOn(steps: seq<Step>, id: JobId): (i: int)
    ensures -1 <= i < |steps|
  {
    if steps == [] then -1
    else if Concerns(steps[|steps| - 1], id) then |steps| - 1
    else LastOn(steps[..|steps| - 1], id)
  }

  lemma {:induction false} LastOnExactly(steps: seq<Step>, i: int, id: JobId)
    ensures IsLast(steps, i, id) <==> i >= 0 && i == LastOn(steps, id)
    decreases |steps|
  {
    if steps != [] && !Concerns(steps[|steps| - 1], id) {
      LastOnExactly(steps[..|steps| - 1], i, id);
    }
  }

  lemma OneRequest(s: Pipe, step: Step, id: JobId)
    requires IsRequest(step) && ByJobId(s.tracked)
    ensures var t := After(s, step);
            && t.loop == s.loop && ByJobId(t.tracked)
            && (Concerns(step, id) ==>
                  if step.Dispatch? then id in t.tracked && t.tracked[id] == step.job else id !in t.tracked)
            && (!Concerns(step, id) ==>
                  (id in t.tracked <==> id in s.tracked) && (id in s.tracked ==> t.tracked[id] == s.tracked[id]))
  {
  }

  /** The tracker after requests: the last request about a job decides. */
  lemma {:induction false} LastRequestDecides(s: Pipe, steps: seq<Step>, id: JobId)
    requires (forall i :: 0 <= i < |steps| ==> IsRequest(steps[i])) && ByJobId(s.tracked)
    ensures var t, i := RunOf(s, steps), LastOn(steps, id);
            && t.loop == s.loop && ByJobId(t.tracked)
            && (i >= 0 ==> if steps[i].Dispatch? then id in t.tracked && t.tracked[id] == steps[i].job else id !in t.tracked)
            && (i < 0 ==> (id in t.tracked <==> id in s.tracked) && (id in s.tracked ==> t.tracked[id] == s.tracked[id]))
    decreases |steps|
  {
    hide Concerns, After;
    if steps != [] {
      var before, last := steps[..|steps| - 1], steps[|steps| - 1];
      assert steps == before + [last];
      LastRequestDecides(s, before, id);
      RunOfThen(s, before, last);
      hide RunOf;
      OneRequest(RunOf(s, before), last, id);
    }
  }

  /**
   In any run: whatever the engines answer, a poll removes only jobs whose own answer is final, if and only if
   no listed job was redispatched between listing and polling.
   */
  lemma PollIsExactBetween(s: Pipe, requests: seq<Step>)
    requires s.loop.Waiting? && ByJobId(s.tracked)
    requires forall i :: 0 <= i < |requests| ==> IsRequest(requests[i])
    ensures var t := RunOf(After(s, List), requests);
            && t.loop == Listed(s.tracked)
            && ((forall answers, reports :: Enabled(t, Poll(answers, reports)) ==>
                   RemovesOnlyEnded(t.tracked, After(t, Poll(answers, reports)).tracked, answers))
                <==> !Redispatched(s.tracked, requests))
  {
    hide RunOf, AfterPoll, Ends, ReportsAll;
    var l := After(s, List);
    var t := RunOf(l, requests);
    LastRequestDecides(l, requests, 0);
    ReplacedIsRedispatched(l, requests);
    RemovesOnlyEndedExactly(t.tracked, s.tracked);
    if !NoneReplaced(t.tracked, s.tracked) {
      var answers :| !RemovesOnlyEnded(t.tracked, AfterPoll(t.tracked, s.tracked, answers), answers);
      var reports := SomeReports(s.tracked, answers);
      assert Enabled(t, Poll(answers, reports));
    }
  }

  lemma ReplacedIsRedispatched(s: Pipe, requests: seq<Step>)
    requires ByJobId(s.tracked) && forall i :: 0 <= i < |requests| ==> IsRequest(requests[i])
    ensures NoneReplaced(RunOf(s, requests).tracked, s.tracked) <==> !Redispatched(s.tracked, requests)
  {
    hide RunOf;
    var t := RunOf(s, requests);
    if !NoneReplaced(t.tracked, s.tracked) {
      var id :| id in t.tracked && id in s.tracked && t.tracked[id] != s.tracked[id];
      LastRequestDecides(s, requests, id);
      var i := LastOn(requests, id);
      LastOnExactly(requests, i, id);
      assert requests[i].Dispatch? && requests[i].job.jobId == id;
    }
    if Redispatched(s.tracked, requests) {
      var i :| 0 <= i < |requests| && requests[i].Dispatch? && IsLast(requests, i, requests[i].job.jobId)
        && requests[i].job.jobId in s.tracked && s.tracked[requests[i].job.jobId] != requests[i].job;
      LastOnExactly(requests, i, requests[i].job.jobId);
      LastRequestDecides(s, requests, requests[i].job.jobId);
    }
  }

  /** Any answers can be reported. */
  lemma {:induction false} SomeReports(listed: Tracked, answers: Answers) returns (reports: seq<StatusReport>)
    requires ByJobId(listed)
    ensures ReportsAll(reports, listed, answers)
    decreases |listed|
  {
    hide AnswerFor, ReportsAll;
    if listed == map[] {
      reports := [];
      NothingPolled(map[], answers);
    } else {
      var id :| id in listed;
      var rest, once := listed - {id}, map[id := listed[id]];
      var others := SomeReports(rest, answers);
      var mine := OwnReport(listed[id], answers);
      ReportsJoin(others, mine, rest, once, answers);
      assert rest + once == listed;
      reports := others + mine;
    }
  }

  lemma OwnReport(t: TrackedJob, answers: Answers) returns (reports: seq<StatusReport>)
    ensures ReportsAll(reports, map[t.jobId := t], answers)
  {
    hide AnswerFor;
    var report := ReportFor(t, answers);
    reports := if report.Some? then [report.value] else [];
    assert report.Some? ==> reports[0].jobId == t.jobId;
  }

  /**
   So a job that is listed, cancelled and dispatched anew before its poll can fall out of the tracker
   while it runs: nothing will report its end.
   */
  lemma RedispatchLosesTracking()
    ensures var first, second := TrackedJob(1, "aria2", "a"), TrackedJob(1, "aria2", "b");
            var status := JobStatus("a", "", StateFailed, 0.0, 0, 0, 0, "cancelled");
            var answers: Answers := map["aria2" := Some(map["a" := status])];
            var steps := [Dispatch(first), List, Cancel(1), Dispatch(second), Poll(answers, [ReportOf(1, status)])];
            && Possible(START, steps) && RunOf(START, steps).tracked == map[]
            && AnswerFor(second, answers) == None
  {
    hide Possible, RunOf, AfterPoll, AfterPush, ReportsAll;
    var first, second := TrackedJob(1, "aria2", "a"), TrackedJob(1, "aria2", "b");
    var status := JobStatus("a", "", StateFailed, 0.0, 0, 0, 0, "cancelled");
    var answers: Answers := map["aria2" := Some(map["a" := status])];
    var reports := [ReportOf(1, status)];
    var steps := [Dispatch(first), List, Cancel(1), Dispatch(second), Poll(answers, reports)];
    var listed, now: Tracked := map[1 := first], map[1 := second];
    var s := START.(tracked := listed, loop := Listed(listed), dispatched := multiset{1});
    var t := s.(tracked := now, cancelled := multiset{1}, dispatched := multiset{1, 1});
    assert AnswerFor(second, answers) == None;
    assert After(After(START, Dispatch(first)), List) == s;
    assert After(After(s, Cancel(1)), Dispatch(second)) == t;
    assert Enabled(After(START, Dispatch(first)), List);
    OneAnswer(first, answers, now);
    hide AnswerFor, HandOver, Ends, Ended;
    assert After(t, Poll(answers, reports)).tracked == map[];
    TwoSteps(START, Dispatch(first), List, steps[2..]);
    TwoSteps(s, Cancel(1), Dispatch(second), steps[4..]);
    assert steps == [Dispatch(first), List] + steps[2..] && steps[2..] == [Cancel(1), Dispatch(second)] + steps[4..];
    OneStep(t, Poll(answers, reports));
    assert steps[4..] == [Poll(answers, reports)];
  }

  lemma OneStep(s: Pipe, a: Step)
    ensures RunOf(s, [a]) == After(s, a) && (Possible(s, [a]) <==> Enabled(s, a))
  {
    assert [a][1..] == [];
  }

  lemma TwoSteps(s: Pipe, a: Step, b: Step, rest: seq<Step>)
    ensures RunOf(s, [a, b] + rest) == RunOf(After(After(s, a), b), rest)
    ensures Possible(s, [a, b] + rest)
       <==> Enabled(s, a) && Enabled(After(s, a), b) && Possible(After(After(s, a), b), rest)
  {
    hide After, Enabled;
    var steps := [a, b] + rest;
    assert steps[1..] == [b] + rest && ([b] + rest)[1..] == rest;
  }

  // ---------- Up to the job table ----------

  /**
   The engine ID in a job's row is the tracked one, and a poll whose reports reach the controller keeps it
   so, also when the engine hands the job over to a new ID: a cancellation finds the download.
   */
  lemma IdsStayTogether(now: Tracked, answers: Answers, reports: seq<StatusReport>, sent: seq<StatusReport>,
                        jobs: Jobs, uploadPending: bool, after: Jobs, id: JobId)
    requires ReportsAll(reports, now, answers) && forall x :: x in sent <==> x in reports
    requires Pushed(jobs, sent, uploadPending, after)
    requires id in now && id in jobs && jobs[id].engineJobId == Some(now[id].engineJobId)
    ensures var tracked := AfterPoll(now, now, answers);
            id in tracked ==> id in after && after[id].engineJobId == Some(tracked[id].engineJobId)
  {
    hide Pushed, AnswerFor;
    var report := ReportFor(now[id], answers);
    if report.Some? {
      var i :| 0 <= i < |reports| && reports[i].jobId == id;
      assert reports[i] == report.value;
      PushShows(jobs, sent, uploadPending, after, report.value);
    } else {
      PushLeavesOthers(jobs, sent, uploadPending, after, id);
    }
  }

  /**
   After an Add whose dispatch a node accepted, and tracked under the engine's ID as DispatchJob does, the row
   has the tracked engine ID.
   */
  lemma AddedIsTracked(s: Db, req: DownloadSteps.Request, c: DownloadSteps.Circumstances, a: DownloadSteps.Adding, tracked: Tracked)
    requires DownloadSteps.IsAdd(s, req, c, a) && a.dispatched && c.dispatch.Accepted? && c.dispatch.engineJobId != ""
    requires a.answer.Ok? ==> a.answer.value.job in tracked && tracked[a.answer.value.job].engineJobId == c.dispatch.engineJobId
    ensures a.answer.Ok?
    ensures var t, id := Run(s, a.actions), a.answer.value.job;
            id in t.jobs && t.jobs[id].engineJobId == Some(tracked[id].engineJobId)
  {
    hide DownloadSteps.IsAdd, Run;
    OutcomesOfAdd.AcceptedRow(s, req, c, a);
  }

  /**
   From the engine to the table: when the reports of a poll reach the controller, the row of an answered job
   shows what its own engine said about its own engine ID.
   */
  lemma RowShowsEngine(listed: Tracked, answers: Answers, reports: seq<StatusReport>, sent: seq<StatusReport>,
                       jobs: Jobs, uploadPending: bool, after: Jobs, id: JobId)
    requires ReportsAll(reports, listed, answers) && forall x :: x in sent <==> x in reports
    requires Pushed(jobs, sent, uploadPending, after)
    requires id in jobs && id in listed && listed[id].engine in answers && answers[listed[id].engine].Some?
    requires listed[id].engineJobId in answers[listed[id].engine].value
    ensures var st, row := answers[listed[id].engine].value[listed[id].engineJobId], jobs[id];
            id in after
            && match st.state
               case StateCompleted =>
                 after[id] == row
                 || (&& after[id].status == Completed
                     && after[id].size == Some(after[id].downloadedSize)
                     && (st.totalSize != 0 ==> after[id].size == Some(st.totalSize))
                     && (st.name != "" ==> after[id].name == st.name)
                     && (uploadPending ==> after[id].uploadStatus == UploadPending))
               case StateFailed => after[id].status == Failed && after[id].errorMessage == Some(st.error)
               case _ =>
                 && after[id].status == Active
                 && after[id].progress == st.progress && after[id].speed == st.speed
                 && after[id].downloadedSize == st.downloadedSize
                 && (st.totalSize > 0 ==> after[id].size == Some(st.totalSize))
                 && (st.name != "" ==> after[id].name == st.name)
  {
    hide Pushed;
    ReportsCarryAnswers(reports, listed, answers);
    var i :| 0 <= i < |reports| && reports[i].jobId == id;
    PushShows(jobs, sent, uploadPending, after, reports[i]);
  }

  // ---------- The node ----------

  datatype DispatchRequest = DispatchRequest(jobId: JobId, engine: string, storageKey: string, url: string)

  /** filepath.Join of a clean directory and a storage key. */
  function Join(dir: string, key: string): string {
    dir + "/" + key
  }

  class NodeServer {
    const tracker: Tracker
    const sink: GrpcSink
    const engineDirs: map<string, string>
    const downloadDir: string

    ghost predicate Valid()
      reads this, tracker
    {
      tracker.Valid()
    }

    constructor (engineDirs: map<string, string>, downloadDir: string)
      ensures Valid() && fresh(tracker) && fresh(sink) && tracker.jobs == map[] && sink.View() == EMPTY_SINK
      ensures this.engineDirs == engineDirs && this.downloadDir == TrimRight(downloadDir, '/')
    {
      tracker := new Tracker();
      sink := new GrpcSink();
      this.engineDirs := engineDirs;
      this.downloadDir := TrimRight(downloadDir, '/');
    }

    /**
     `added` is the engine's own answer. An accepted job is tracked from here on, and with the engine's
     directory under the node's, its location is that of its files relative to the node's directory.
     */
    method DispatchJob(req: DispatchRequest, added: Result<string, string>) returns (answer: DownloadSteps.Dispatch)
      requires Valid()
      modifies tracker
      ensures Valid() && DownloadSteps.LocatesFiles(answer)
      ensures answer.Accepted? <==> req.engine in engineDirs && added.Ok?
      ensures req.engine in engineDirs && added.Err? ==> answer == DownloadSteps.Refused(added.error)
      ensures tracker.jobs == if answer.Refused? then old(tracker.jobs)
                              else old(tracker.jobs)[req.jobId := TrackedJob(req.jobId, req.engine, added.value)]
      ensures answer.Accepted? ==>
                && answer.engineJobId == added.value
                && forall sub :: engineDirs[req.engine] == downloadDir + "/" + sub ==>
                     answer.location == "file://" + sub + "/" + req.storageKey
    {
      if req.engine !in engineDirs {
        return DownloadSteps.Refused("engine not found");
      }
      match added {
        case Err(e) => return DownloadSteps.Refused(e);
        case Ok(engineJobId) =>
          tracker.Add(req.jobId, req.engine, engineJobId);
          var absPath := Join(engineDirs[req.engine], req.storageKey);
          var relPath := TrimPrefix(absPath, downloadDir + "/");
          ghost var dir, prefix := engineDirs[req.engine], downloadDir + "/";
          forall sub | dir == prefix + sub ensures relPath == sub + "/" + req.storageKey {
            assert absPath == prefix + (sub + "/" + req.storageKey);
          }
          return DownloadSteps.Accepted(engineJobId, "file://" + relPath);
      }
    }

    /** `cancelled` is the engine's answer. */
    method CancelJob(jobId: JobId, engine: string, cancelled: bool) returns (ok: bool)
      requires Valid()
      modifies tracker
      ensures Valid() && ok == (engine in engineDirs && cancelled)
      ensures tracker.jobs == if ok then old(tracker.jobs) - {jobId} else old(tracker.jobs)
    {
      if engine !in engineDirs || !cancelled {
        return false;
      }
      tracker.Remove(jobId);
      return true;
    }

    /** One turn of the status loop, as the steps List, Poll and Push of the pipeline. */
    method Tick(answers: Answers, accepted: bool, ghost before: Pipe) returns (ghost steps: seq<Step>)
      requires Valid() && before.loop == Waiting
      requires before.tracked == tracker.jobs && before.sink == sink.View()
      modifies tracker, sink
      ensures Valid() && Possible(before, steps)
      ensures var after := RunOf(before, steps);
              after.loop == Waiting && after.tracked == tracker.jobs && after.sink == sink.View()
    {
      hide AfterPoll, AfterPush, ReportsAll, Lists;
      steps := [];
      var jobs := tracker.List();
      ghost var listed := tracker.jobs;
      if |jobs| == 0 {
        return;
      }
      assert listed != map[] by { assert jobs[0].jobId in listed; }
      var reports := StatusLoop.Poll(jobs, listed, answers, tracker);
      ghost var s := After(After(before, List), Step.Poll(answers, reports));
      TwoSteps(before, List, Step.Poll(answers, reports), []);
      steps := [List, Step.Poll(answers, reports)] + [];
      assert Possible(s, []) && RunOf(s, []) == s;
      if |reports| == 0 {
        return;
      }
      var failed, sent, uploads := sink.PushStatuses(reports, accepted);
      TwoSteps(before, List, Step.Poll(answers, reports), [Push(accepted)]);
      OneStep(s, Push(accepted));
      steps := [List, Step.Poll(answers, reports)] + [Push(accepted)];
    }
  }
}
