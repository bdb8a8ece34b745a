/**
 The rollback engine's control flow: a proxy-last switch to the stable app, and a handler
 that rolls precisely forward to the candidate after any failure.
 */
module RollbackRun {
  import opened Basics
  import opened RollbackEngine
  import Publication

  datatype Action = InvokeRestore | AppOnlySwitch | NeedsDecision

  datatype Outcome = RolledBack | HandOff | Raised

  /** Nothing but the clock and the audit log was used. */
  predicate OnlyRecords(trace: seq<Entry>) {
    forall e | e in trace :: e.call.Audit? || e.call.DeclareClock? || e.call.MeasureClock?
  }

  /** The candidate serves with its own evidence. */
  predicate CandidateServes(m: Monitor) {
    m.proxy.StartAttempted? && m.ready && m.app == Some(Candidate) && m.pointer == Some(Candidate) && m.Cleared()
  }

  /** The proxy is re-isolated, or the candidate serves with full evidence, or nothing was touched. */
  predicate SafeFailure(m: Monitor) {
    m.proxy.StopAttempted? || CandidateServes(m) || m.proxy.Untouched?
  }

  predicate StableServes(m: Monitor) {
    m.proxy.StartAttempted? && m.ready && m.app == Some(Stable) && m.pointer == Some(Stable) && m.Cleared()
  }

  predicate Isolated(m: Monitor) {
    !m.violated && m.proxy.StopAttempted?
  }

  /** The app was started behind a stopped proxy, and `reference` is the digest its data must have. */
  predicate Started(m: Monitor, v: Version, reference: nat) {
    Isolated(m) && m.app == Some(v) && m.appStarted && m.pointer == Some(v) && m.stopped
    && m.reference == Some(reference)
  }

  /** Everything is shown that the proxy needs to open before this version. */
  predicate MayOpen(m: Monitor, v: Version) {
    !m.violated && m.Cleared() && m.app == Some(v) && m.pointer == Some(v)
  }

  /** The host did what was asked: nothing raised, a question was answered yes, a watermark read gave this digest. */
  predicate Good(e: Entry, mark: nat) {
    && e.reply.Value?
    && (e.call.ProxyIsStopped? || e.call.Validate? || e.call.ExternalReadiness? || e.call.CompleteClock? ==>
          e.reply.n != 0)
    && (e.call.ReadWatermark? ==> e.reply.n == mark)
  }

  predicate GoodFrom(trace: seq<Entry>, from: nat, mark: nat) {
    forall k | from <= k < |trace| :: Good(trace[k], mark)
  }

  function Calls(trace: seq<Entry>): (calls: seq<Call>)
    ensures |calls| == |trace| && forall k | 0 <= k < |trace| :: calls[k] == trace[k].call
  {
    seq(|trace|, k requires 0 <= k < |trace| => trace[k].call)
  }

  /** The fixed order of a switch: isolate, move to stable, prove it, and open the proxy last. */
  const ISOLATE := [RetainArtifacts, StopProxy, ProxyIsStopped]
  const SWITCH_TO_STABLE := [StopApp, SwitchPointer(Stable), StartApp(Stable), ProxyIsStopped]
  const PROVE_STABLE := [ReadWatermark, Validate(Stable), ReadWatermark, AuthorizeProxy]
  const OPEN_STABLE := [StartProxy, ExternalReadiness, CompleteClock, Audit]
  const SWITCH := ISOLATE + SWITCH_TO_STABLE + PROVE_STABLE + OPEN_STABLE

  /** The fixed order of a roll-forward. */
  const START_CANDIDATE := [StopApp, SwitchPointer(Candidate), StartApp(Candidate), ProxyIsStopped]
  const PROVE_CANDIDATE := [Validate(Candidate), ReadWatermark, AuthorizeProxy]
  const OPEN_CANDIDATE := [StartProxy, ExternalReadiness, Audit]
  const ROLL_FORWARD := [ReadWatermark] + START_CANDIDATE + PROVE_CANDIDATE + OPEN_CANDIDATE

  /** A request to stop the app was carried out. */
  predicate AppStopped(trace: seq<Entry>, from: nat) {
    exists k | from <= k < |trace| :: trace[k].call.StopApp? && trace[k].reply.Value?
  }

  /** From here on the host answers well, and every watermark read gives the same digest. */
  ghost predicate Steady(trace: seq<Entry>, from: nat) {
    exists mark: nat :: GoodFrom(trace, from, mark)
  }

  /** The first bad answer came at `f`, after the app was stopped; all later ones are good. */
  ghost predicate FailsOnce(trace: seq<Entry>, from: nat, expected: nat, f: nat) {
    && from <= f < |trace|
    && GoodFrom(trace[..f], from, expected) && !Good(trace[f], expected) && AppStopped(trace[..f], from)
    && Steady(trace, f + 1)
  }

  /** Whatever failed after the app was stopped: if the host answers well from then on, the candidate serves. */
  ghost predicate RollsForward(trace: seq<Entry>, from: nat, expected: nat, m: Monitor) {
    forall f: nat | FailsOnce(trace, from, expected, f) :: CandidateServes(m)
  }

  lemma OneMore(trace: seq<Entry>, e: Entry)
    ensures forall n: nat, mark: nat | n <= |trace| ::
              GoodFrom(trace + [e], n, mark) <==> GoodFrom(trace, n, mark) && Good(e, mark)
    ensures forall n: nat | n <= |trace| ::
              AppStopped(trace + [e], n) <==> AppStopped(trace, n) || (e.call.StopApp? && e.reply.Value?)
    ensures forall n: nat, mark: nat | n >= |trace| :: GoodFrom(trace, n, mark) && !AppStopped(trace, n)
    ensures Calls(trace + [e]) == Calls(trace) + [e.call]
  {
    forall n: nat, mark: nat | n <= |trace|
      ensures GoodFrom(trace + [e], n, mark) <==> GoodFrom(trace, n, mark) && Good(e, mark)
    {
      var t := trace + [e];
      assert t[|trace|] == e && forall k | n <= k < |trace| :: t[k] == trace[k];
      if GoodFrom(t, n, mark) {
        forall k | n <= k < |trace| ensures Good(trace[k], mark) {
          assert Good(t[k], mark);
        }
      }
    }
    forall n: nat | n <= |trace|
      ensures AppStopped(trace + [e], n) <==> AppStopped(trace, n) || (e.call.StopApp? && e.reply.Value?)
    {
      var t := trace + [e];
      assert t[|trace|] == e && forall k | n <= k < |trace| :: t[k] == trace[k];
    }
  }

  /** Good answers, in two stretches. */
  lemma GoodJoins(shorter: seq<Entry>, trace: seq<Entry>, from: nat, mark: nat)
    requires from <= |shorter| && shorter <= trace
    ensures GoodFrom(trace, from, mark) <==> GoodFrom(shorter, from, mark) && GoodFrom(trace, |shorter|, mark)
    ensures AppStopped(trace, from) <==> AppStopped(shorter, from) || AppStopped(trace, |shorter|)
  {
    assert forall k | 0 <= k < |shorter| :: trace[k] == shorter[k];
    if GoodFrom(trace, from, mark) {
      forall k | from <= k < |shorter| ensures Good(shorter[k], mark) {
        assert Good(trace[k], mark);
      }
    }
  }

  class Engine {
    const oracle: nat -> Reply    // what the host answers to its n-th call
    const expected: nat           // digest of the declared watermark
    var trace: seq<Entry>

    constructor (oracle: nat -> Reply, expected: nat)
      ensures this.oracle == oracle && this.expected == expected && trace == []
    {
      this.oracle, this.expected, this.trace := oracle, expected, [];
    }

    ghost function Seen(): Monitor
      reads this
    {
      Watch(trace, expected)
    }

    method Ask(call: Call) returns (reply: Reply)
      modifies this
      ensures reply == oracle(|old(trace)|)
      ensures trace == old(trace) + [Entry(call, reply)] && Calls(trace) == Calls(old(trace)) + [call]
      ensures Seen() == Observe(old(Seen()), expected, Entry(call, reply))
      ensures forall n: nat, mark: nat | n <= |old(trace)| ::
                GoodFrom(trace, n, mark) <==> GoodFrom(old(trace), n, mark) && Good(Entry(call, reply), mark)
      ensures forall n: nat | n <= |old(trace)| ::
                AppStopped(trace, n) <==> AppStopped(old(trace), n) || (call.StopApp? && reply.Value?)
    {
      OneMore(trace, Entry(call, oracle(|trace|)));
      reply := oracle(|trace|);
      WatchOne(trace, expected, Entry(call, reply));
      trace := trace + [Entry(call, reply)];
    }

    /** Keep the artifacts, stop the proxy, and see it stopped. */
    method Isolate() returns (ok: bool, proxyStopAttempted: bool)
      requires Seen() == QUIET
      modifies this
      ensures Seen() == QUIET.(proxy := Seen().proxy, stopped := Seen().stopped) && !Seen().proxy.StartAttempted?
      ensures proxyStopAttempted <==> Seen().proxy.StopAttempted?
      ensures ok ==> proxyStopAttempted && Seen().stopped
      ensures old(trace) <= trace && (ok <==> GoodFrom(trace, |old(trace)|, expected))
      ensures !AppStopped(trace, |old(trace)|)
      ensures ok ==> Calls(trace) == Calls(old(trace)) + ISOLATE
    {
      OneMore(trace, Entry(Audit, Raise));
      hide GoodFrom, AppStopped, Calls;
      ok, proxyStopAttempted := false, false;
      var r := Ask(RetainArtifacts);
      if r.Raise? { return; }
      proxyStopAttempted := true;
      r := Ask(StopProxy);
      if r.Raise? { return; }
      r := Ask(ProxyIsStopped);
      ok := Yes(r);
    }

    /** Stop the app, move the pointer and the app to the stable version, and see the proxy still stopped. */
    method SwitchToStable() returns (ok: bool, appTouched: bool)
      requires Seen() == QUIET.(proxy := StopAttempted, stopped := true)
      modifies this
      ensures Isolated(Seen()) && (ok ==> appTouched && Started(Seen(), Stable, expected))
      ensures old(trace) <= trace && (ok <==> GoodFrom(trace, |old(trace)|, expected))
      ensures appTouched <==> AppStopped(trace, |old(trace)|)
      ensures !appTouched ==> Seen().app.None? && Seen().pointer.None?
      ensures ok ==> Calls(trace) == Calls(old(trace)) + SWITCH_TO_STABLE
    {
      OneMore(trace, Entry(Audit, Raise));
      hide GoodFrom, AppStopped, Calls;
      ok, appTouched := false, false;
      var r := Ask(StopApp);
      if r.Raise? { return; }
      appTouched := true;
      r := Ask(SwitchPointer(Stable));
      if r.Raise? { return; }
      r := Ask(StartApp(Stable));
      if r.Raise? { return; }
      r := Ask(ProxyIsStopped);
      ok := Yes(r);
    }

    /** The first half of the switch. */
    method IsolateAndSwitch() returns (ok: bool, proxyStopAttempted: bool, appTouched: bool)
      requires Seen() == QUIET
      modifies this
      ensures !Seen().violated && !Seen().proxy.StartAttempted?
      ensures proxyStopAttempted <==> Seen().proxy.StopAttempted?
      ensures appTouched ==> proxyStopAttempted
      ensures ok ==> appTouched && Started(Seen(), Stable, expected)
      ensures old(trace) <= trace && (ok <==> GoodFrom(trace, |old(trace)|, expected))
      ensures appTouched <==> AppStopped(trace, |old(trace)|)
      ensures !appTouched ==> Seen().app.None? && Seen().pointer.None?
      ensures ok ==> Calls(trace) == Calls(old(trace)) + ISOLATE + SWITCH_TO_STABLE
    {
      hide GoodFrom, AppStopped, Calls;
      appTouched := false;
      ok, proxyStopAttempted := Isolate();
      if ok {
        ghost var isolated := trace;
        ok, appTouched := SwitchToStable();
        GoodJoins(isolated, trace, |old(trace)|, expected);
      }
    }

    /** Prove that the stable app serves the declared data, without changing it. */
    method ProveStable() returns (ok: bool)
      requires Started(Seen(), Stable, expected)
      modifies this
      ensures Isolated(Seen()) && (ok ==> MayOpen(Seen(), Stable))
      ensures old(trace) <= trace && (ok <==> GoodFrom(trace, |old(trace)|, expected))
      ensures ok ==> Calls(trace) == Calls(old(trace)) + PROVE_STABLE
    {
      OneMore(trace, Entry(Audit, Raise));
      hide GoodFrom, AppStopped, Calls;
      var r := Ask(ReadWatermark);
      ok := r == Value(expected);
      if ok {
        r := Ask(Validate(Stable));
        ok := Yes(r);
      }
      if ok {
        r := Ask(ReadWatermark);
        ok := r == Value(expected);
      }
      if ok {
        r := Ask(AuthorizeProxy);
        ok := r.Value?;
      }
    }

    /** Start the proxy last, and complete the operation only after external readiness. */
    method OpenStable() returns (ok: bool)
      requires MayOpen(Seen(), Stable)
      modifies this
      ensures !Seen().violated && !Seen().proxy.Untouched?
      ensures ok ==> StableServes(Seen())
      ensures old(trace) <= trace && (ok <==> GoodFrom(trace, |old(trace)|, expected))
      ensures ok ==> Calls(trace) == Calls(old(trace)) + OPEN_STABLE
    {
      OneMore(trace, Entry(Audit, Raise));
      hide GoodFrom, AppStopped, Calls;
      ok := false;
      var r := Ask(StartProxy);
      if r.Raise? { return; }
      r := Ask(ExternalReadiness);
      if r.Raise? { return; }
      if !Yes(r) {
        r := Ask(StopProxy);
        return;
      }
      r := Ask(CompleteClock);
      if !Yes(r) {
        if r.Value? {
          r := Ask(Audit);
        }
        return;
      }
      r := Ask(Audit);
      ok := r.Value?;
    }

    /** Stop whatever runs, move the pointer and the app back to the candidate, and see the proxy stopped. */
    method StartCandidate(ghost mark: nat) returns (ok: bool)
      requires Isolated(Seen()) && Seen().lastMark == Some(mark)
      modifies this
      ensures Isolated(Seen()) && (ok ==> Started(Seen(), Candidate, mark))
      ensures old(trace) <= trace && forall m: nat :: GoodFrom(trace, |old(trace)|, m) <==> ok
      ensures ok ==> Calls(trace) == Calls(old(trace)) + START_CANDIDATE
    {
      OneMore(trace, Entry(Audit, Raise));
      hide GoodFrom, AppStopped, Calls;
      var r := Ask(StopApp);
      if r.Value? {
        r := Ask(SwitchPointer(Candidate));
      }
      if r.Value? {
        r := Ask(StartApp(Candidate));
      }
      if r.Value? {
        r := Ask(ProxyIsStopped);
      }
      ok := Yes(r);
    }

    /** Read the data as the failure left it, then start the candidate. */
    method BringBack() returns (ok: bool, mark: Reply)
      requires Isolated(Seen())
      modifies this
      ensures Isolated(Seen()) && (ok ==> mark.Value? && Started(Seen(), Candidate, mark.n))
      ensures old(trace) <= trace && (ok ==> GoodFrom(trace, |old(trace)|, mark.n))
      ensures forall m: nat | GoodFrom(trace, |old(trace)|, m) :: ok && mark == Value(m)
      ensures ok ==> Calls(trace) == Calls(old(trace)) + [ReadWatermark] + START_CANDIDATE
    {
      OneMore(trace, Entry(Audit, Raise));
      hide GoodFrom, AppStopped, Calls;
      ok := false;
      mark := Ask(ReadWatermark);
      if mark.Raise? { return; }
      ghost var read := trace;
      ok := StartCandidate(mark.n);
      forall m: nat
        ensures GoodFrom(trace, |old(trace)|, m) <==> GoodFrom(read, |old(trace)|, m) && GoodFrom(trace, |read|, m)
      {
        GoodJoins(read, trace, |old(trace)|, m);
      }
    }

    /** Bring the candidate back and reopen it, with its own evidence. */
    method RollForward() returns (ok: bool)
      requires Isolated(Seen())
      modifies this
      ensures !Seen().violated && !Seen().proxy.Untouched?
      ensures ok ==> CandidateServes(Seen())
      ensures old(trace) <= trace && (ok <==> Steady(trace, |old(trace)|))
      ensures ok ==> Calls(trace) == Calls(old(trace)) + ROLL_FORWARD
    {
      var mark;
      ok, mark := BringBack();
      if !ok {
        return;
      }
      ghost var start := trace;
      ok := ProveCandidate(mark.n);
      if ok {
        ok := OpenCandidate(mark.n);
      }
      forall m: nat
        ensures GoodFrom(trace, |old(trace)|, m) <==> GoodFrom(start, |old(trace)|, m) && GoodFrom(trace, |start|, m)
      {
        GoodJoins(start, trace, |old(trace)|, m);
      }
    }

    /** The candidate passes its validation on the data that was read before it was started. */
    method ProveCandidate(mark: nat) returns (ok: bool)
      requires Started(Seen(), Candidate, mark)
      modifies this
      ensures Isolated(Seen()) && (ok ==> MayOpen(Seen(), Candidate))
      ensures old(trace) <= trace && (ok <==> GoodFrom(trace, |old(trace)|, mark))
      ensures ok ==> Calls(trace) == Calls(old(trace)) + PROVE_CANDIDATE
    {
      OneMore(trace, Entry(Audit, Raise));
      hide GoodFrom, AppStopped, Calls;
      ok := false;
      var r := Ask(Validate(Candidate));
      if !Yes(r) { return; }
      var after := Ask(ReadWatermark);
      if after != Value(mark) { return; }
      r := Ask(AuthorizeProxy);
      ok := r.Value?;
    }

    method OpenCandidate(ghost mark: nat) returns (ok: bool)
      requires MayOpen(Seen(), Candidate)
      modifies this
      ensures !Seen().violated && !Seen().proxy.Untouched?
      ensures ok ==> CandidateServes(Seen())
      ensures old(trace) <= trace && (ok <==> GoodFrom(trace, |old(trace)|, mark))
      ensures ok ==> Calls(trace) == Calls(old(trace)) + OPEN_CANDIDATE
    {
      OneMore(trace, Entry(Audit, Raise));
      hide GoodFrom, AppStopped, Calls;
      ok := false;
      var r := Ask(StartProxy);
      if r.Raise? { return; }
      r := Ask(ExternalReadiness);
      if !Yes(r) {
        if r.Value? {
          r := Ask(StopProxy);
        }
        return;
      }
      r := Ask(Audit);
      ok := r.Value?;
    }

    /** Roll forward, or leave the proxy isolated. */
    method RollForwardOrIsolate()
      requires Isolated(Seen())
      modifies this
      ensures !Seen().violated && SafeFailure(Seen()) && !Seen().proxy.Untouched?
      ensures old(trace) <= trace && (CandidateServes(Seen()) <==> Steady(trace, |old(trace)|))
      ensures CandidateServes(Seen()) ==> Calls(trace) == Calls(old(trace)) + ROLL_FORWARD
    {
      hide Calls;
      var ok := RollForward();
      if !ok {
        ghost var failed := trace;
        var r := Ask(StopProxy);
        r := Ask(Audit);
        assert forall m: nat :: GoodFrom(trace, |old(trace)|, m) ==> GoodFrom(failed, |old(trace)|, m);
      }
    }

    /**
     The handler: re-isolate, then roll forward if the app may have been touched. Only the answer to the re-isolation
     does not matter; the candidate serves in the end exactly when the host answered well from there on.
     */
    method Recover(proxyStopAttempted: bool, appTouched: bool)
      requires !Seen().violated && (proxyStopAttempted <==> !Seen().proxy.Untouched?)
      requires appTouched ==> proxyStopAttempted
      modifies this
      ensures !Seen().violated && SafeFailure(Seen())
      ensures Seen().proxy.Untouched? <==> !proxyStopAttempted
      ensures old(trace) <= trace
      ensures appTouched ==> (CandidateServes(Seen()) <==> Steady(trace, |old(trace)| + 1))
      ensures !appTouched ==> Seen().app == old(Seen()).app && Seen().pointer == old(Seen()).pointer
      ensures CandidateServes(Seen()) ==> Calls(trace) == Calls(old(trace)) + [StopProxy] + ROLL_FORWARD
    {
      hide GoodFrom, AppStopped, Calls, Steady;
      var r: Reply;
      if proxyStopAttempted {
        r := Ask(StopProxy);
      }
      if appTouched {
        RollForwardOrIsolate();
      } else {
        r := Ask(Audit);
      }
    }

    /**
     The proxy-last switch. It returns, with the stable app serving, exactly when every answer was good and every
     watermark read was the declared one; otherwise it raises.
     */
    method SwitchApp() returns (outcome: Outcome)
      requires Seen() == QUIET
      modifies this
      ensures outcome == RolledBack || outcome == Raised
      ensures outcome == RolledBack ==> StableServes(Seen())
      ensures outcome == Raised ==> SafeFailure(Seen())
      ensures EveryProxyStartJustified(trace, expected)
      ensures old(trace) <= trace
      ensures outcome == RolledBack <==> GoodFrom(trace, |old(trace)|, expected)
      ensures RollsForward(trace, |old(trace)|, expected, Seen())
      ensures !AppStopped(trace, |old(trace)|) ==> Seen().app.None? && Seen().pointer.None?
      ensures outcome == RolledBack ==> Calls(trace) == Calls(old(trace)) + SWITCH
    {
      hide GoodFrom, AppStopped, StableServes, SafeFailure, CandidateServes, EveryProxyStartJustified, RollsForward;
      hide Steady;
      ghost var n := |trace|;
      var ok, proxyStopAttempted, appTouched := IsolateAndSwitch();
      ghost var m, first := trace, trace;
      if ok {
        ok := ProveStable();
        GoodJoins(m, trace, n, expected);
      }
      if ok {
        m := trace;
        ok := OpenStable();
        GoodJoins(m, trace, n, expected);
      }
      m := trace;
      if !ok {
        Recover(proxyStopAttempted, appTouched);
        GoodJoins(m, trace, n, expected);
      }
      GoodJoins(first, trace, n, expected);
      FailureIsHandled(m, trace, n, expected, Seen(), appTouched);
      QuietMeansJustified(trace, expected);
      outcome := if ok then RolledBack else Raised;
    }

    /** Start the operation's clock, or keep an earlier start, and record the chosen path. */
    method Decide() returns (ok: bool)
      requires trace == []
      modifies this
      ensures OnlyRecords(trace) && Seen() == QUIET
      ensures ok <==> GoodFrom(trace, 0, expected)
      ensures ok ==> Calls(trace) == [DeclareClock, Audit]
    {
      OneMore(trace, Entry(Audit, Raise));
      hide GoodFrom, AppStopped, Calls;
      var r := Ask(DeclareClock);
      if r.Value? {
        r := Ask(Audit);
      }
      ok := r.Value?;
    }

    /** Path one: measure, record the hand-off, and leave the data to the restore. */
    method PathOne() returns (outcome: Outcome)
      requires OnlyRecords(trace) && Seen() == QUIET
      modifies this
      ensures OnlyRecords(trace) && Seen() == QUIET && old(trace) <= trace
      ensures outcome == HandOff || outcome == Raised
      ensures outcome == HandOff <==> GoodFrom(trace, |old(trace)|, expected)
      ensures outcome == HandOff ==> Calls(trace) == Calls(old(trace)) + [MeasureClock, Audit]
    {
      OneMore(trace, Entry(Audit, Raise));
      hide GoodFrom, AppStopped, Calls;
      var r := Ask(MeasureClock);
      if r.Value? {
        r := Ask(Audit);
      }
      return if r.Value? then HandOff else Raised;
    }

    /** Choose the action, refuse a raced one, and carry out only what the action allows. */
    method Run(path: Publication.Path, compatible: bool, expectedAction: Option<Action>) returns (outcome: Outcome)
      requires trace == []
      modifies this
      ensures EveryProxyStartJustified(trace, expected)
      ensures outcome == RolledBack ==> StableServes(Seen())
      ensures outcome == Raised ==> SafeFailure(Seen())
      ensures outcome == RolledBack <==>
              && path == Publication.PreserveForwardData && compatible
              && (expectedAction.None? || expectedAction.value == AppOnlySwitch) && GoodFrom(trace, 0, expected)
      ensures outcome == RolledBack ==> Calls(trace) == [DeclareClock, Audit] + SWITCH
      ensures outcome == HandOff <==>
              && path == Publication.PrePublicRestore
              && (expectedAction.None? || expectedAction.value == InvokeRestore) && GoodFrom(trace, 0, expected)
      ensures outcome == HandOff ==> Calls(trace) == [DeclareClock, Audit, MeasureClock, Audit]
      ensures path == Publication.PrePublicRestore || !compatible ==> OnlyRecords(trace)
      ensures expectedAction.Some? && expectedAction.value != ActionFor(path, compatible) ==> OnlyRecords(trace)
      ensures RollsForward(trace, 0, expected, Seen())
    {
      hide Seen, EveryProxyStartJustified, GoodFrom, AppStopped, RollsForward, Calls, SafeFailure, StableServes;
      var ok := Decide();
      RecordsAreSafe(trace, expected, Seen());
      if !ok { return Raised; }
      ghost var records := trace;
      var action := ActionFor(path, compatible);
      var r: Reply;
      if expectedAction.Some? && expectedAction.value != action {
        r := Ask(Audit);
        RecordsAreSafe(trace, expected, Seen());
        return Raised;
      }
      match action {
        case InvokeRestore =>
          outcome := PathOne();
          GoodJoins(records, trace, 0, expected);
          RecordsAreSafe(trace, expected, Seen());
        case NeedsDecision =>
          r := Ask(Audit);
          RecordsAreSafe(trace, expected, Seen());
          return Raised;
        case AppOnlySwitch =>
          outcome := SwitchApp();
          GoodJoins(records, trace, 0, expected);
          RollsForwardAfterRecords(records, trace, expected, Seen());
      }
    }
  }

  /** If the part before the handler had a bad answer, the first bad answer is in that part. */
  lemma FailureIsHandled(before: seq<Entry>, trace: seq<Entry>, from: nat, expected: nat, m: Monitor, touched: bool)
    requires from <= |before| && before <= trace
    requires GoodFrom(before, from, expected) ==> before == trace
    requires AppStopped(before, from) ==> touched
    requires touched && !GoodFrom(before, from, expected) && Steady(trace, |before| + 1) ==> CandidateServes(m)
    ensures RollsForward(trace, from, expected, m)
  {
    forall f: nat | FailsOnce(trace, from, expected, f) ensures CandidateServes(m) {
      assert forall k | 0 <= k < |before| && k < f :: before[k] == trace[..f][k];
      assert f < |before| && !GoodFrom(before, from, expected) by {
        assert f < |before| ==> before[f] == trace[f];
      }
      var mark: nat :| GoodFrom(trace, f + 1, mark);
      assert GoodFrom(trace, |before| + 1, mark);
      assert AppStopped(before, from);
    }
  }

  /** The records made before the switch do not matter. */
  lemma RollsForwardAfterRecords(records: seq<Entry>, trace: seq<Entry>, expected: nat, m: Monitor)
    requires records <= trace && OnlyRecords(records) && RollsForward(trace, |records|, expected, m)
    ensures RollsForward(trace, 0, expected, m)
  {
    forall f: nat | FailsOnce(trace, 0, expected, f) ensures CandidateServes(m) {
      var k :| 0 <= k < f && trace[..f][k].call.StopApp? && trace[..f][k].reply.Value?;
      assert forall j | 0 <= j < |records| :: records[j] == trace[j] && records[j] in records;
      assert FailsOnce(trace, |records|, expected, f);
    }
  }

  lemma RecordsAreSafe(trace: seq<Entry>, expected: nat, m: Monitor)
    requires OnlyRecords(trace)
    ensures EveryProxyStartJustified(trace, expected) && RollsForward(trace, 0, expected, m)
    ensures m == QUIET ==> SafeFailure(m)
  {
    assert forall i | 0 <= i < |trace| :: trace[i] in trace;
    forall f: nat | f <= |trace| ensures !AppStopped(trace[..f], 0) {
      assert forall k | 0 <= k < f :: trace[..f][k] in trace;
    }
  }

  function ActionFor(path: Publication.Path, compatible: bool): Action {
    match path
    case PrePublicRestore => InvokeRestore
    case PreserveForwardData => if compatible then AppOnlySwitch else NeedsDecision
  }
}
