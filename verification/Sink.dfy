/**
 The worker's sink for status reports (grpcSink in internal/worker/server.go): completions and failures
 wait in a bounded buffer until a push succeeds, progress is sent once or lost.
 */
module Sink {
  import opened Reports
  import opened Push

  const MAX_PENDING_TERMINAL: nat := 1000

  // ---------- A sink as a value ----------

  datatype Fate = Delivered | Dropped

  /** A terminal report that has left the buffer. */
  datatype Settled = Settled(report: StatusReport, fate: Fate)

  /** The buffer, and everything that ever left it, in order. */
  datatype SinkState = SinkState(buffer: seq<StatusReport>, log: seq<Settled>)

  const EMPTY_SINK := SinkState([], [])

  function Settle(reports: seq<StatusReport>, fate: Fate): (r: seq<Settled>)
    ensures |r| == |reports| && forall i :: 0 <= i < |r| ==> r[i] == Settled(reports[i], fate)
  {
    seq(|reports|, i requires 0 <= i < |reports| => Settled(reports[i], fate))
  }

  function Excess(pending: seq<StatusReport>): nat {
    if |pending| > MAX_PENDING_TERMINAL then |pending| - MAX_PENDING_TERMINAL else 0
  }

  /** One push: either everything pending is delivered, or the oldest above the bound are dropped. */
  function AfterPush(s: SinkState, reports: seq<StatusReport>, accepted: bool): SinkState {
    var pending := s.buffer + TerminalOf(reports);
    if accepted then SinkState([], s.log + Settle(pending, Delivered))
    else SinkState(pending[Excess(pending)..], s.log + Settle(pending[..Excess(pending)], Dropped))
  }

  datatype Call = Call(reports: seq<StatusReport>, accepted: bool)

  function AfterCalls(s: SinkState, calls: seq<Call>): SinkState
    decreases |calls|
  {
    if calls == [] then s else AfterCalls(AfterPush(s, calls[0].reports, calls[0].accepted), calls[1..])
  }

  /** All terminal reports of the calls, in order. */
  function HandedIn(calls: seq<Call>): seq<StatusReport>
    decreases |calls|
  {
    if calls == [] then [] else TerminalOf(calls[0].reports) + HandedIn(calls[1..])
  }

  function ReportsOf(log: seq<Settled>): (r: seq<StatusReport>)
    ensures |r| == |log| && forall i :: 0 <= i < |r| ==> r[i] == log[i].report
  {
    seq(|log|, i requires 0 <= i < |log| => log[i].report)
  }

  /** What the log and the buffer hold together. */
  function Ledger(s: SinkState): seq<StatusReport> {
    ReportsOf(s.log) + s.buffer
  }

  /**
   The buffer is bounded and holds only terminal reports; a report was dropped only if that many
   newer ones came after it.
   */
  ghost predicate Sound(s: SinkState) {
    && |s.buffer| <= MAX_PENDING_TERMINAL
    && (forall r :: r in s.buffer ==> Terminal(r.state))
    && (forall i :: 0 <= i < |s.log| && s.log[i].fate == Dropped ==>
          |s.log| + |s.buffer| - i > MAX_PENDING_TERMINAL)
  }

  lemma PushKeeps(s: SinkState, reports: seq<StatusReport>, accepted: bool)
    requires Sound(s)
    ensures Sound(AfterPush(s, reports, accepted))
    ensures Ledger(AfterPush(s, reports, accepted)) == Ledger(s) + TerminalOf(reports)
  {
    hide Sound, Ledger, Select, Settle;
    var pending := s.buffer + TerminalOf(reports);
    assert forall r :: r in TerminalOf(reports) ==> Terminal(r.state);
    hide TerminalOf;
    var k := if accepted then |pending| else Excess(pending);
    SettleSome(s, TerminalOf(reports), k, if accepted then Delivered else Dropped);
    assert accepted ==> pending[..k] == pending && pending[k..] == [];
  }

  /** The first k pending reports leave the buffer: all as delivered, or just the excess as dropped. */
  lemma SettleSome(s: SinkState, more: seq<StatusReport>, k: nat, fate: Fate)
    requires Sound(s) && forall r :: r in more ==> Terminal(r.state)
    requires k <= |s.buffer + more|
    requires if fate == Delivered then k == |s.buffer + more| else k == Excess(s.buffer + more)
    ensures var pending := s.buffer + more;
            var t := SinkState(pending[k..], s.log + Settle(pending[..k], fate));
            Sound(t) && Ledger(t) == Ledger(s) + more
  {
    hide Sound, Ledger, Settle;
    SettleKeepsSound(s, more, k, fate);
    SettleKeepsLedger(s, more, k, fate);
  }

  lemma SettleKeepsLedger(s: SinkState, more: seq<StatusReport>, k: nat, fate: Fate)
    requires k <= |s.buffer + more|
    ensures var pending := s.buffer + more;
            Ledger(SinkState(pending[k..], s.log + Settle(pending[..k], fate))) == Ledger(s) + more
  {
    hide ReportsOf, Settle;
    var pending := s.buffer + more;
  }

  lemma SettleKeepsSound(s: SinkState, more: seq<StatusReport>, k: nat, fate: Fate)
    requires Sound(s) && forall r :: r in more ==> Terminal(r.state)
    requires k <= |s.buffer + more|
    requires if fate == Delivered then k == |s.buffer + more| else k == Excess(s.buffer + more)
    ensures var pending := s.buffer + more; Sound(SinkState(pending[k..], s.log + Settle(pending[..k], fate)))
  {
    var pending := s.buffer + more;
    var settled := Settle(pending[..k], fate);
    var log := s.log + settled;
    assert forall r :: r in pending ==> r in s.buffer || r in more;
    forall i | 0 <= i < |log| && log[i].fate == Dropped ensures |log| + |pending[k..]| - i > MAX_PENDING_TERMINAL {
      assert i < |s.log| ==> log[i] == s.log[i];
      assert i >= |s.log| ==> log[i] == settled[i - |s.log|];
    }
  }

  /** A push loses reports exactly when it fails with more than the bound pending, and then the oldest. */
  lemma LossExactly(s: SinkState, reports: seq<StatusReport>, accepted: bool)
    ensures var t := AfterPush(s, reports, accepted);
            (exists i :: |s.log| <= i < |t.log| && t.log[i].fate == Dropped)
            <==> !accepted && |s.buffer| + |TerminalOf(reports)| > MAX_PENDING_TERMINAL
  {
    hide Select;
    var t := AfterPush(s, reports, accepted);
    if !accepted && |s.buffer| + |TerminalOf(reports)| > MAX_PENDING_TERMINAL {
      assert t.log[|s.log|].fate == Dropped;
    }
  }

  /**
   After any calls with any successes and failures: what left the buffer and what is in it are all
   terminal reports ever handed in, in order.
   */
  lemma {:induction false} NothingIsReordered(s: SinkState, calls: seq<Call>)
    requires Sound(s)
    ensures Sound(AfterCalls(s, calls))
    ensures Ledger(AfterCalls(s, calls)) == Ledger(s) + HandedIn(calls)
    decreases |calls|
  {
    hide Sound, Ledger, AfterPush, TerminalOf;
    if calls == [] {
      assert Ledger(s) + [] == Ledger(s);
    } else {
      var c := calls[0];
      PushKeeps(s, c.reports, c.accepted);
      NothingIsReordered(AfterPush(s, c.reports, c.accepted), calls[1..]);
      assert (Ledger(s) + TerminalOf(c.reports)) + HandedIn(calls[1..]) == Ledger(s) + HandedIn(calls);
    }
  }

  lemma EmptyIsSound()
    ensures Sound(EMPTY_SINK)
  {
  }

  /** The reports the controller acknowledged, in order. */
  function DeliveredOf(log: seq<Settled>): seq<StatusReport> {
    if log == [] then []
    else
      var last := log[|log| - 1];
      DeliveredOf(log[..|log| - 1]) + (if last.fate == Delivered then [last.report] else [])
  }

  predicate NothingDropped(log: seq<Settled>) {
    forall i :: 0 <= i < |log| ==> log[i].fate == Delivered
  }

  lemma {:induction false} AllDelivered(log: seq<Settled>)
    ensures |DeliveredOf(log)| <= |log|
    ensures NothingDropped(log) ==> DeliveredOf(log) == ReportsOf(log)
    ensures |DeliveredOf(log)| == |log| ==> NothingDropped(log)
  {
    if log != [] {
      var before := log[..|log| - 1];
      AllDelivered(before);
      assert ReportsOf(log) == ReportsOf(before) + [log[|log| - 1].report];
      assert forall i :: 0 <= i < |before| ==> before[i] == log[i];
    }
  }

  /** Delivered reports followed by the buffer are exactly what was handed in iff nothing was dropped. */
  lemma NothingLostExactly(calls: seq<Call>)
    ensures var s := AfterCalls(EMPTY_SINK, calls);
            DeliveredOf(s.log) + s.buffer == HandedIn(calls) <==> NothingDropped(s.log)
  {
    hide AfterCalls, HandedIn, Sound, DeliveredOf, NothingDropped;
    var s := AfterCalls(EMPTY_SINK, calls);
    NothingIsReordered(EMPTY_SINK, calls) by { assert Sound(EMPTY_SINK) by { EmptyIsSound(); } }
    assert Ledger(EMPTY_SINK) + HandedIn(calls) == HandedIn(calls);
    AllDelivered(s.log);
  }

  /** The latest reports up to the bound are never dropped; so nothing is while no more were handed in. */
  lemma LatestAreSafe(calls: seq<Call>, i: nat)
    requires var s := AfterCalls(EMPTY_SINK, calls); i < |s.log|
    requires i + MAX_PENDING_TERMINAL >= |HandedIn(calls)|
    ensures var s := AfterCalls(EMPTY_SINK, calls);
            i < |HandedIn(calls)| && s.log[i] == Settled(HandedIn(calls)[i], Delivered)
  {
    hide AfterCalls, HandedIn, Sound, ReportsOf;
    var s := AfterCalls(EMPTY_SINK, calls);
    EmptyIsSound();
    NothingIsReordered(EMPTY_SINK, calls);
    LateIsDelivered(s, i);
  }

  lemma LateIsDelivered(s: SinkState, i: nat)
    requires Sound(s) && i < |s.log| && i + MAX_PENDING_TERMINAL >= |Ledger(s)|
    ensures i < |Ledger(s)| && s.log[i] == Settled(Ledger(s)[i], Delivered)
  {
  }

  // ---------- The sink ----------

  predicate SomeCompleted(reports: seq<StatusReport>) {
    exists i :: 0 <= i < |reports| && reports[i].state == StateCompleted
  }

  class GrpcSink {
    var pendingTerminal: seq<StatusReport>
    ghost var log: seq<Settled>

    ghost function View(): SinkState
      reads this
    {
      SinkState(pendingTerminal, log)
    }

    constructor ()
      ensures View() == EMPTY_SINK
    {
      pendingTerminal, log := [], [];
    }

    /**
     `accepted` is the outcome of the remote call, `sent` what it carries (no call when empty), and
     `uploads` tells whether the uploader is triggered.
     */
    method PushStatuses(reports: seq<StatusReport>, accepted: bool)
      returns (failed: bool, sent: seq<StatusReport>, uploads: bool)
      modifies this
      ensures View() == AfterPush(old(View()), reports, accepted)
      ensures sent == old(pendingTerminal) + TerminalOf(reports) + ProgressOf(reports)
      ensures failed <==> sent != [] && !accepted
      ensures uploads <==> accepted && SomeCompleted(old(pendingTerminal) + TerminalOf(reports))
    {
      hide TerminalOf, ProgressOf, SomeCompleted, Settle;
      ghost var before := View();
      var terminal, progress: seq<StatusReport> := [], [];
      var hasCompletions := false;
      assert reports[..0] == [];
      NothingSelected();
      for i := 0 to |reports|
        invariant terminal == TerminalOf(reports[..i]) && progress == ProgressOf(reports[..i])
        invariant hasCompletions == SomeCompleted(terminal) && View() == before
      {
        var r := reports[i];
        assert reports[..i + 1] == reports[..i] + [r];
        OneMoreReport(reports[..i], r);
        if r.state == StateCompleted || r.state == StateFailed {
          OneMoreCompleted(terminal, r, []);
          terminal := terminal + [r];
          if r.state == StateCompleted {
            hasCompletions := true;
          }
        } else {
          progress := progress + [r];
        }
      }
      assert reports[..|reports|] == reports;
      if |pendingTerminal| > 0 {
        assert pendingTerminal[..0] + terminal == terminal;
        for i := 0 to |pendingTerminal|
          invariant View() == before
          invariant hasCompletions == SomeCompleted(pendingTerminal[..i] + terminal)
        {
          OneMoreCompleted(pendingTerminal[..i], pendingTerminal[i], terminal);
          assert pendingTerminal[..i + 1] == pendingTerminal[..i] + [pendingTerminal[i]];
          if pendingTerminal[i].state == StateCompleted {
            hasCompletions := true;
          }
        }
        assert pendingTerminal[..|pendingTerminal|] == pendingTerminal;
        terminal := pendingTerminal + terminal;
        pendingTerminal := [];
      }
      assert terminal == before.buffer + TerminalOf(reports);
      sent := terminal + progress;
      log := AfterPush(before, reports, accepted).log;
      if |sent| == 0 {
        return false, sent, false;
      }
      if !accepted {
        if |terminal| > 0 {
          if |terminal| > MAX_PENDING_TERMINAL {
            terminal := terminal[|terminal| - MAX_PENDING_TERMINAL..];
          }
          pendingTerminal := terminal;
        }
        return true, sent, false;
      }
      return false, sent, hasCompletions;
    }
  }

  lemma OneMoreReport(before: seq<StatusReport>, r: StatusReport)
    ensures TerminalOf(before + [r]) == TerminalOf(before) + (if Terminal(r.state) then [r] else [])
    ensures ProgressOf(before + [r]) == ProgressOf(before) + (if Terminal(r.state) then [] else [r])
  {
    hide Select;
    SelectLast(before, r, (x: StatusReport) => Terminal(x.state));
    SelectLast(before, r, (x: StatusReport) => !Terminal(x.state));
  }

  lemma OneMoreCompleted(xs: seq<StatusReport>, r: StatusReport, ys: seq<StatusReport>)
    ensures SomeCompleted(xs + [r] + ys) <==> SomeCompleted(xs + ys) || r.state == StateCompleted
    ensures SomeCompleted(xs + [r]) <==> SomeCompleted(xs) || r.state == StateCompleted
  {
    CompletedIn(xs, [r]);
    CompletedIn(xs + [r], ys);
    CompletedIn(xs, ys);
    assert SomeCompleted([r]) <==> r.state == StateCompleted by {
      assert [r][0] == r;
    }
  }

  lemma CompletedIn(xs: seq<StatusReport>, ys: seq<StatusReport>)
    ensures SomeCompleted(xs + ys) <==> SomeCompleted(xs) || SomeCompleted(ys)
  {
    if SomeCompleted(xs) {
      var i :| 0 <= i < |xs| && xs[i].state == StateCompleted;
      assert (xs + ys)[i].state == StateCompleted;
    }
    if SomeCompleted(ys) {
      var i :| 0 <= i < |ys| && ys[i].state == StateCompleted;
      assert (xs + ys)[|xs| + i].state == StateCompleted;
    }
  }

  lemma NothingSelected()
    ensures TerminalOf([]) == [] && ProgressOf([]) == [] && !SomeCompleted([])
  {
  }
}
