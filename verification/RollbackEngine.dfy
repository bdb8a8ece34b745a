/**
 The proxy-last rollback engine against an arbitrary host: any call may raise, and any
 question may be answered "no".

 Every host call is logged. A monitor reads the log and latches when the proxy is started
 without the evidence that must come first.
 */
module RollbackEngine {
  import opened Basics

  datatype Version = Stable | Candidate

  datatype Call =
    | RetainArtifacts
    | StopProxy
    | ProxyIsStopped
    | StopApp
    | SwitchPointer(version: Version)
    | StartApp(version: Version)
    | ReadWatermark
    | Validate(version: Version)
    | AuthorizeProxy
    | StartProxy
    | ExternalReadiness
    | DeclareClock
    | MeasureClock
    | CompleteClock
    | Audit

  /** A call raises, or returns a number: a watermark digest, or zero for "no". */
  datatype Reply = Raise | Value(n: nat)

  datatype Entry = Entry(call: Call, reply: Reply)

  // ---------------------------------------------------------------------------
  // The monitor
  // ---------------------------------------------------------------------------

  datatype Proxy = Untouched | StopAttempted | StartAttempted

  /**
   What the log shows. `stopped`, `validated`, `authorized` and `mark` are evidence since the
   last attempt to start the app; `reference` is what `mark` must equal: the declared
   watermark for the stable app, the last one read before it for the candidate.
   */
  datatype Monitor = Monitor(
    app: Option<Version>, appStarted: bool, pointer: Option<Version>,
    stopped: bool, validated: bool, authorized: bool,
    lastMark: Option<nat>, mark: Option<nat>, reference: Option<nat>,
    proxy: Proxy, ready: bool, violated: bool)
  {
    predicate Cleared() {
      appStarted && stopped && validated && authorized && mark.Some? && mark == reference
    }
  }

  const QUIET := Monitor(None, false, None, false, false, false, None, None, None, Untouched, false, false)

  predicate Yes(r: Reply) {
    r.Value? && r.n != 0
  }

  function Observe(m: Monitor, expected: nat, e: Entry): Monitor {
    match e.call
    case StartApp(v) =>
      m.(app := Some(v), appStarted := e.reply.Value?, stopped := false, validated := false, authorized := false,
         mark := None, reference := if v.Stable? then Some(expected) else m.lastMark, ready := false)
    case SwitchPointer(v) => m.(pointer := if e.reply.Value? then Some(v) else None)
    case ProxyIsStopped => m.(stopped := m.stopped || Yes(e.reply))
    case Validate(v) => m.(validated := m.validated || (Yes(e.reply) && m.app == Some(v)))
    case AuthorizeProxy => m.(authorized := m.authorized || e.reply.Value?)
    case ReadWatermark =>
      if e.reply.Value? then m.(lastMark := Some(e.reply.n), mark := Some(e.reply.n)) else m
    case StartProxy => m.(proxy := StartAttempted, ready := false, violated := m.violated || !m.Cleared())
    case StopProxy => m.(proxy := StopAttempted, ready := false)
    case ExternalReadiness => m.(ready := m.proxy.StartAttempted? && Yes(e.reply))
    case _ => m
  }

  function Watch(trace: seq<Entry>, expected: nat): Monitor {
    if trace == [] then QUIET
    else Observe(Watch(trace[..|trace| - 1], expected), expected, trace[|trace| - 1])
  }

  lemma WatchOne(trace: seq<Entry>, expected: nat, e: Entry)
    ensures Watch(trace + [e], expected) == Observe(Watch(trace, expected), expected, e)
  {
    assert (trace + [e])[..|trace|] == trace;
  }

  // ---------------------------------------------------------------------------
  // What a quiet monitor means, without the monitor
  // ---------------------------------------------------------------------------

  predicate IsStartApp(e: Entry) {
    e.call.StartApp?
  }

  /** `a` is the last attempt to start the app before position `i`. */
  predicate LastStart(trace: seq<Entry>, a: int, i: int) {
    && 0 <= a < i <= |trace| && IsStartApp(trace[a])
    && forall k | a < k < i :: !IsStartApp(trace[k])
  }

  /** `w` is the last watermark read strictly between two positions. */
  predicate LastMark(trace: seq<Entry>, lo: int, w: int, i: int) {
    && 0 <= w && lo < w < i <= |trace| && trace[w].call.ReadWatermark? && trace[w].reply.Value?
    && forall k | w < k < i :: !(trace[k].call.ReadWatermark? && trace[k].reply.Value?)
  }

  predicate StoppedBetween(trace: seq<Entry>, a: int, i: int) {
    exists k | 0 <= k < |trace| :: a < k < i && trace[k].call.ProxyIsStopped? && Yes(trace[k].reply)
  }

  predicate ValidatedBetween(trace: seq<Entry>, v: Version, a: int, i: int) {
    exists k | 0 <= k < |trace| :: a < k < i && trace[k].call == Validate(v) && Yes(trace[k].reply)
  }

  predicate AuthorizedBetween(trace: seq<Entry>, a: int, i: int) {
    exists k | 0 <= k < |trace| :: a < k < i && trace[k].call.AuthorizeProxy? && trace[k].reply.Value?
  }

  /**
   Since the app was last started: the start succeeded, the proxy was seen stopped, that
   version passed its validation, publication was authorized, and the last watermark read is
   the declared one, or, for the candidate, the last one read before it was started.
   */
  ghost predicate Evidence(trace: seq<Entry>, expected: nat, a: int, i: int)
    requires LastStart(trace, a, i)
  {
    && trace[a].reply.Value?
    && StoppedBetween(trace, a, i)
    && ValidatedBetween(trace, trace[a].call.version, a, i)
    && AuthorizedBetween(trace, a, i)
    && exists w :: LastMark(trace, a, w, i)
         && if trace[a].call.version.Stable?
            then trace[w].reply.n == expected
            else exists u :: LastMark(trace, -1, u, a) && trace[u].reply == trace[w].reply
  }

  /** Every proxy start follows, since the last app start, all the evidence it needs. */
  ghost predicate EveryProxyStartJustified(trace: seq<Entry>, expected: nat) {
    forall i | 0 <= i < |trace| && trace[i].call.StartProxy? ::
      exists a :: LastStart(trace, a, i) && Evidence(trace, expected, a, i)
  }

  /** What the monitor's fields stand for. */
  ghost predicate Reflects(m: Monitor, trace: seq<Entry>, expected: nat) {
    var n := |trace|;
    && (m.lastMark.Some? ==> exists u :: LastMark(trace, -1, u, n) && trace[u].reply.n == m.lastMark.value)
    && (m.app.Some? ==> exists a :: LastStart(trace, a, n) && FromStart(m, trace, expected, a))
    && (m.app.None? ==> !m.appStarted)
  }

  ghost predicate FromStart(m: Monitor, trace: seq<Entry>, expected: nat, a: int)
    requires LastStart(trace, a, |trace|)
  {
    var n := |trace|;
    && m.app == Some(trace[a].call.version) && m.appStarted == trace[a].reply.Value?
    && (m.stopped ==> StoppedBetween(trace, a, n))
    && (m.validated ==> ValidatedBetween(trace, trace[a].call.version, a, n))
    && (m.authorized ==> AuthorizedBetween(trace, a, n))
    && (m.mark.Some? ==> exists w :: LastMark(trace, a, w, n) && trace[w].reply.n == m.mark.value)
    && (m.reference.Some? ==>
          if trace[a].call.version.Stable? then m.reference.value == expected
          else exists u :: LastMark(trace, -1, u, a) && trace[u].reply.n == m.reference.value)
  }

  lemma BetweenGrows(trace: seq<Entry>, e: Entry, v: Version, a: int, i: int)
    requires i <= |trace|
    ensures StoppedBetween(trace, a, i) ==> StoppedBetween(trace + [e], a, i) && StoppedBetween(trace + [e], a, i + 1)
    ensures ValidatedBetween(trace, v, a, i) ==>
              ValidatedBetween(trace + [e], v, a, i) && ValidatedBetween(trace + [e], v, a, i + 1)
    ensures AuthorizedBetween(trace, a, i) ==> AuthorizedBetween(trace + [e], a, i) && AuthorizedBetween(trace + [e], a, i + 1)
  {
    var t := trace + [e];
    assert forall k | 0 <= k < |trace| :: t[k] == trace[k];
  }

  lemma MarkGrows(trace: seq<Entry>, e: Entry, lo: int, w: int, i: int)
    requires LastMark(trace, lo, w, i)
    ensures LastMark(trace + [e], lo, w, i) && (trace + [e])[w] == trace[w]
    ensures i == |trace| && !(e.call.ReadWatermark? && e.reply.Value?) ==> LastMark(trace + [e], lo, w, i + 1)
  {
  }

  lemma StartGrows(trace: seq<Entry>, e: Entry, a: int, i: int)
    requires LastStart(trace, a, i)
    ensures LastStart(trace + [e], a, i) && (trace + [e])[a] == trace[a]
    ensures i == |trace| && !e.call.StartApp? ==> LastStart(trace + [e], a, i + 1)
  {
  }

  lemma ObservesMarks(m: Monitor, expected: nat, e: Entry)
    ensures Observe(m, expected, e).lastMark
            == if e.call.ReadWatermark? && e.reply.Value? then Some(e.reply.n) else m.lastMark
  {}

  lemma ReflectsLastMark(m: Monitor, trace: seq<Entry>, expected: nat, e: Entry)
    requires Reflects(m, trace, expected)
    ensures var m', t := Observe(m, expected, e), trace + [e];
            m'.lastMark.Some? ==> exists u :: LastMark(t, -1, u, |t|) && t[u].reply.n == m'.lastMark.value
  {
    ObservesMarks(m, expected, e);
    hide FromStart, LastStart, StoppedBetween, ValidatedBetween, AuthorizedBetween, Observe;
    var m', t := Observe(m, expected, e), trace + [e];
    if e.call.ReadWatermark? && e.reply.Value? {
      assert LastMark(t, -1, |trace|, |t|);
    } else if m.lastMark.Some? {
      var u :| LastMark(trace, -1, u, |trace|) && trace[u].reply.n == m.lastMark.value;
      MarkGrows(trace, e, -1, u, |trace|);
    }
  }

  lemma ReflectsStart(m: Monitor, trace: seq<Entry>, expected: nat, e: Entry)
    requires Reflects(m, trace, expected) && e.call.StartApp?
    ensures LastStart(trace + [e], |trace|, |trace| + 1)
    ensures FromStart(Observe(m, expected, e), trace + [e], expected, |trace|)
  {
    if m.lastMark.Some? {
      var u :| LastMark(trace, -1, u, |trace|) && trace[u].reply.n == m.lastMark.value;
      MarkGrows(trace, e, -1, u, |trace|);
    }
  }

  lemma ReflectsOther(m: Monitor, trace: seq<Entry>, expected: nat, e: Entry, a: int)
    requires !e.call.StartApp? && LastStart(trace, a, |trace|) && FromStart(m, trace, expected, a)
    ensures LastStart(trace + [e], a, |trace| + 1)
    ensures FromStart(Observe(m, expected, e), trace + [e], expected, a)
  {
    StartGrows(trace, e, a, |trace|);
    assert 0 <= a < |trace|;
    hide StoppedBetween, ValidatedBetween, AuthorizedBetween, LastMark, LastStart;
    var m', t, n := Observe(m, expected, e), trace + [e], |trace|;
    BetweenGrows(trace, e, trace[a].call.version, a, n);
    EvidenceNow(trace, e, a);
    ReflectsMark(m, trace, expected, e, a);
    if m.reference.Some? && trace[a].call.version.Candidate? {
      ReferenceGrows(trace, e, a, m.reference.value);
    }
    ObserveBetweenStarts(m, expected, e);
    hide Observe;
  }

  lemma ReferenceGrows(trace: seq<Entry>, e: Entry, a: int, n: nat)
    requires exists u :: LastMark(trace, -1, u, a) && trace[u].reply.n == n
    ensures exists u :: LastMark(trace + [e], -1, u, a) && (trace + [e])[u].reply.n == n
  {
    var u :| LastMark(trace, -1, u, a) && trace[u].reply.n == n;
    MarkGrows(trace, e, -1, u, a);
  }

  /** Between two app starts the monitor only gains evidence, and only from the matching answer. */
  lemma ObserveBetweenStarts(m: Monitor, expected: nat, e: Entry)
    requires !e.call.StartApp?
    ensures var m' := Observe(m, expected, e);
            && m'.app == m.app && m'.appStarted == m.appStarted && m'.reference == m.reference
            && (m'.stopped ==> m.stopped || (e.call.ProxyIsStopped? && Yes(e.reply)))
            && (m'.validated ==> m.validated || (e.call.Validate? && Yes(e.reply) && m.app == Some(e.call.version)))
            && (m'.authorized ==> m.authorized || (e.call.AuthorizeProxy? && e.reply.Value?))
  {
    match e.call
    case SwitchPointer(_) =>
    case ProxyIsStopped =>
    case Validate(_) =>
    case AuthorizeProxy =>
    case ReadWatermark =>
    case StartProxy =>
    case StopProxy =>
    case ExternalReadiness =>
    case _ =>
  }

  lemma EvidenceNow(trace: seq<Entry>, e: Entry, a: int)
    requires 0 <= a < |trace|
    ensures e.call.ProxyIsStopped? && Yes(e.reply) ==> StoppedBetween(trace + [e], a, |trace| + 1)
    ensures e.call.Validate? && Yes(e.reply) ==> ValidatedBetween(trace + [e], e.call.version, a, |trace| + 1)
    ensures e.call.AuthorizeProxy? && e.reply.Value? ==> AuthorizedBetween(trace + [e], a, |trace| + 1)
  {
    assert (trace + [e])[|trace|] == e;
  }

  lemma ReflectsMark(m: Monitor, trace: seq<Entry>, expected: nat, e: Entry, a: int)
    requires !e.call.StartApp? && 0 <= a < |trace|
    requires m.mark.Some? ==> exists w :: LastMark(trace, a, w, |trace|) && trace[w].reply.n == m.mark.value
    ensures var m', t := Observe(m, expected, e), trace + [e];
            m'.mark.Some? ==> exists w :: LastMark(t, a, w, |t|) && t[w].reply.n == m'.mark.value
  {
    var m', t, n := Observe(m, expected, e), trace + [e], |trace|;
    if e.call.ReadWatermark? && e.reply.Value? {
      assert LastMark(t, a, n, n + 1) && t[n].reply.n == m'.mark.value;
    } else if m.mark.Some? {
      var w :| LastMark(trace, a, w, n) && trace[w].reply.n == m.mark.value;
      MarkGrows(trace, e, a, w, n);
    }
  }

  lemma {:induction false} WatchReflects(trace: seq<Entry>, expected: nat)
    ensures Reflects(Watch(trace, expected), trace, expected)
  {
    if trace != [] {
      var n := |trace| - 1;
      var shorter, e := trace[..n], trace[n];
      WatchReflects(shorter, expected);
      assert trace == shorter + [e];
      hide Reflects;
      ReflectsNext(Watch(shorter, expected), shorter, expected, e);
    }
  }

  lemma ReflectsNext(m: Monitor, trace: seq<Entry>, expected: nat, e: Entry)
    requires Reflects(m, trace, expected)
    ensures Reflects(Observe(m, expected, e), trace + [e], expected)
  {
    ReflectsLastMark(m, trace, expected, e);
    hide FromStart, LastMark;
    if e.call.StartApp? {
      ReflectsStart(m, trace, expected, e);
    } else if m.app.Some? {
      var a :| LastStart(trace, a, |trace|) && FromStart(m, trace, expected, a);
      ReflectsOther(m, trace, expected, e, a);
    }
  }

  lemma ClearedMeansEvidence(trace: seq<Entry>, expected: nat, m: Monitor)
    requires Reflects(m, trace, expected) && m.Cleared()
    ensures exists a :: LastStart(trace, a, |trace|) && Evidence(trace, expected, a, |trace|)
  {
    var n := |trace|;
    var a :| LastStart(trace, a, n) && FromStart(m, trace, expected, a);
    var w :| LastMark(trace, a, w, n) && trace[w].reply.n == m.mark.value;
    if trace[a].call.version.Candidate? {
      var u :| LastMark(trace, -1, u, a) && trace[u].reply.n == m.reference.value;
      assert trace[u].reply == trace[w].reply;
    }
    assert Evidence(trace, expected, a, n);
  }

  lemma EvidenceGrows(trace: seq<Entry>, e: Entry, expected: nat, a: int, i: int)
    requires LastStart(trace, a, i) && Evidence(trace, expected, a, i)
    ensures LastStart(trace + [e], a, i) && Evidence(trace + [e], expected, a, i)
  {
    StartGrows(trace, e, a, i);
    BetweenGrows(trace, e, trace[a].call.version, a, i);
    var w :| LastMark(trace, a, w, i)
             && if trace[a].call.version.Stable? then trace[w].reply.n == expected
                else exists u :: LastMark(trace, -1, u, a) && trace[u].reply == trace[w].reply;
    MarkGrows(trace, e, a, w, i);
    if trace[a].call.version.Candidate? {
      var u :| LastMark(trace, -1, u, a) && trace[u].reply == trace[w].reply;
      MarkGrows(trace, e, -1, u, a);
    }
  }

  /** A quiet monitor is sound: nothing else about the log needs to be trusted. */
  lemma {:induction false} QuietMeansJustified(trace: seq<Entry>, expected: nat)
    requires !Watch(trace, expected).violated
    ensures EveryProxyStartJustified(trace, expected)
  {
    if trace != [] {
      var n := |trace| - 1;
      var shorter, e := trace[..n], trace[n];
      assert trace == shorter + [e];
      QuietMeansJustified(shorter, expected);
      WatchReflects(shorter, expected);
      hide Evidence, Reflects, LastStart;
      forall i | 0 <= i < |trace| && trace[i].call.StartProxy?
        ensures exists a :: LastStart(trace, a, i) && Evidence(trace, expected, a, i)
      {
        if i == n {
          ClearedMeansEvidence(shorter, expected, Watch(shorter, expected));
        }
        var a :| LastStart(shorter, a, i) && Evidence(shorter, expected, a, i);
        EvidenceGrows(shorter, e, expected, a, i);
      }
    }
  }
}
