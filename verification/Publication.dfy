/**
 The publication state of a release: a document, its integrity seal, and an irreversible
 cutover marker, in three files that are written one after another.

 An operation is the list of file writes it makes. A crash keeps a prefix of the list, and a
 crash inside an exclusive create leaves a torn file; a write error makes the operation undo
 its own creates and raise.
 */
module Publication {
  import opened Basics

  const PREPARED := 0
  const PUBLIC_CUTOVER := 3
  const STAGE_COUNT := 4

  datatype HistoryItem = HistoryItem(stage: nat, at: int)

  datatype StateDoc = StateDoc(
    release: nat, stage: nat, everPublic: bool, baseline: nat, baselineDigest: nat, history: seq<HistoryItem>)

  datatype Body<T> = Absent | Torn | Whole(value: T)

  datatype Files = Files(state: Body<StateDoc>, seal: Body<nat>, marker: Body<nat>)

  const NO_FILES := Files(Absent, Absent, Absent)

  /** The digest functions for documents and for watermarks. */
  datatype Digests = Digests(doc: StateDoc -> nat, watermark: nat -> nat)

  // ---------------------------------------------------------------------------
  // Reading
  // ---------------------------------------------------------------------------

  function StagesOf(history: seq<HistoryItem>): seq<nat> {
    seq(|history|, i requires 0 <= i < |history| => history[i].stage)
  }

  function FirstStages(n: nat): seq<nat> {
    seq(n, i => i)
  }

  predicate WellFormed(d: Digests, doc: StateDoc, release: nat) {
    && doc.release == release && doc.stage < STAGE_COUNT
    && d.watermark(doc.baseline) == doc.baselineDigest
    && StagesOf(doc.history) == FirstStages(doc.stage + 1)
    && doc.everPublic == (doc.stage == PUBLIC_CUTOVER)
  }

  predicate MarkerAgrees(doc: StateDoc, marker: Body<nat>, release: nat) {
    match marker
    case Absent => doc.stage != PUBLIC_CUTOVER
    case Torn => false
    case Whole(r) => r == release && doc.stage == PUBLIC_CUTOVER
  }

  /** The document, if every check of a read passes. */
  function Read(d: Digests, f: Files, release: nat): Option<StateDoc> {
    if f.state.Whole? && f.seal.Whole? && d.doc(f.state.value) == f.seal.value
       && WellFormed(d, f.state.value, release) && MarkerAgrees(f.state.value, f.marker, release)
    then Some(f.state.value)
    else None
  }

  predicate ProxyStartAuthorized(d: Digests, f: Files, release: nat) {
    var doc := Read(d, f, release);
    doc.Some? && doc.value.stage == PUBLIC_CUTOVER && doc.value.everPublic
  }

  datatype Path = PrePublicRestore | PreserveForwardData

  /** Path one needs positive proof; a failed read is no proof. */
  function ChooseRollbackPath(d: Digests, f: Files, release: nat, current: nat, isolated: bool): Path {
    var doc := Read(d, f, release);
    if doc.Some? && doc.value.stage < PUBLIC_CUTOVER && !doc.value.everPublic && isolated
       && d.watermark(doc.value.baseline) == doc.value.baselineDigest
       && d.watermark(current) == doc.value.baselineDigest
    then PrePublicRestore
    else PreserveForwardData
  }

  // ---------------------------------------------------------------------------
  // Writing
  // ---------------------------------------------------------------------------

  datatype Write =
    | TearState | PutState(doc: StateDoc) | DropState
    | TearSeal | PutSeal(digest: nat) | DropSeal
    | TearMarker | PutMarker(release: nat) | DropMarker

  function Perform(f: Files, w: Write): Files {
    match w
    case TearState => f.(state := Torn)
    case PutState(doc) => f.(state := Whole(doc))
    case DropState => f.(state := Absent)
    case TearSeal => f.(seal := Torn)
    case PutSeal(digest) => f.(seal := Whole(digest))
    case DropSeal => f.(seal := Absent)
    case TearMarker => f.(marker := Torn)
    case PutMarker(release) => f.(marker := Whole(release))
    case DropMarker => f.(marker := Absent)
  }

  function PerformAll(f: Files, ws: seq<Write>): Files
    decreases |ws|
  {
    if ws == [] then f else PerformAll(Perform(f, ws[0]), ws[1..])
  }

  /** Which exclusive create of an operation meets a write error. */
  datatype Fault = NoFault | FirstCreate | SecondCreate

  datatype Op = Prepare(baseline: nat, at: int) | Advance(stage: nat, at: int)

  function PreparedDoc(d: Digests, release: nat, baseline: nat, at: int): StateDoc {
    StateDoc(release, PREPARED, false, baseline, d.watermark(baseline), [HistoryItem(PREPARED, at)])
  }

  function AdvancedDoc(doc: StateDoc, stage: nat, at: int): StateDoc {
    doc.(stage := stage, everPublic := doc.everPublic || stage == PUBLIC_CUTOVER,
         history := doc.history + [HistoryItem(stage, at)])
  }

  function PrepareScript(d: Digests, f: Files, release: nat, baseline: nat, at: int, fault: Fault): seq<Write> {
    var doc := PreparedDoc(d, release, baseline, at);
    if !f.marker.Absent? || !f.state.Absent? then []
    else if fault.FirstCreate? then [TearState, DropState]
    else if !f.seal.Absent? then [TearState, PutState(doc), DropState]
    else if fault.SecondCreate? then [TearState, PutState(doc), TearSeal, DropSeal, DropState]
    else [TearState, PutState(doc), TearSeal, PutSeal(d.doc(doc))]
  }

  function AdvanceScript(d: Digests, f: Files, release: nat, stage: nat, at: int, fault: Fault): seq<Write> {
    var read := Read(d, f, release);
    if read.None? || stage >= STAGE_COUNT || stage != read.value.stage + 1 then []
    else
      var doc := AdvancedDoc(read.value, stage, at);
      if stage != PUBLIC_CUTOVER then [PutState(doc), PutSeal(d.doc(doc))]
      else if !fault.NoFault? then [TearMarker, DropMarker]
      else [TearMarker, PutMarker(release), PutState(doc), PutSeal(d.doc(doc))]
  }

  /** The writes of an operation, in order. */
  function Script(d: Digests, f: Files, release: nat, op: Op, fault: Fault): seq<Write> {
    match op
    case Prepare(baseline, at) => PrepareScript(d, f, release, baseline, at, fault)
    case Advance(stage, at) => AdvanceScript(d, f, release, stage, at, fault)
  }

  /** The files after at most `n` writes of a list. */
  function Cut(f: Files, ws: seq<Write>, n: nat): Files {
    PerformAll(f, if n <= |ws| then ws[..n] else ws)
  }

  /** An attempt at an operation; it crashed after `cut` writes unless it had fewer. */
  datatype Attempt = Attempt(op: Op, fault: Fault, cut: nat)

  function AfterAttempt(d: Digests, f: Files, release: nat, a: Attempt): Files {
    Cut(f, Script(d, f, release, a.op, a.fault), a.cut)
  }

  function AfterAttempts(d: Digests, f: Files, release: nat, attempts: seq<Attempt>): Files
    decreases |attempts|
  {
    if attempts == [] then f
    else AfterAttempts(d, AfterAttempt(d, f, release, attempts[0]), release, attempts[1..])
  }

  // ---------------------------------------------------------------------------
  // Short lists of writes
  // ---------------------------------------------------------------------------

  lemma CutStep(f: Files, ws: seq<Write>, n: nat)
    requires ws != []
    ensures Cut(f, ws, n) == if n == 0 then f else Cut(Perform(f, ws[0]), ws[1..], n - 1)
  {
    if 0 < n <= |ws| {
      assert ws[..n][1..] == ws[1..][..n - 1];
      assert ws[..n][0] == ws[0];
    }
  }

  lemma CutTwo(f: Files, a: Write, b: Write, n: nat)
    ensures Cut(f, [a, b], n) ==
            if n == 0 then f else if n == 1 then Perform(f, a) else Perform(Perform(f, a), b)
  {
    CutStep(f, [a, b], n);
    assert [a, b][1..] == [b];
    if n > 0 {
      CutStep(Perform(f, a), [b], n - 1);
      assert [b][1..] == [];
    }
  }

  lemma CutMore(f: Files, a: Write, b: Write, rest: seq<Write>, n: nat)
    ensures Cut(f, [a, b] + rest, n) ==
            if n == 0 then f else if n == 1 then Perform(f, a) else Cut(Perform(Perform(f, a), b), rest, n - 2)
  {
    var ws := [a, b] + rest;
    CutStep(f, ws, n);
    assert ws[1..] == [b] + rest;
    if n > 0 {
      CutStep(Perform(f, a), ws[1..], n - 1);
      assert ws[1..][1..] == rest;
    }
  }

  // ---------------------------------------------------------------------------
  // The cutover is irreversible
  // ---------------------------------------------------------------------------

  /** With a marker on disk, whole or torn, path one is never chosen. */
  lemma MarkerForbidsPathOne(d: Digests, f: Files, release: nat, current: nat, isolated: bool)
    requires !f.marker.Absent?
    ensures ChooseRollbackPath(d, f, release, current, isolated) == PreserveForwardData
  {
  }

  /**
   Path one is chosen exactly on three proofs: a state that can be read with no marker beside it, a proxy that stayed
   isolated, and current data with the digest of the stored baseline. Everything else preserves the data.
   */
  lemma PathOneIff(d: Digests, f: Files, release: nat, current: nat, isolated: bool)
    ensures ChooseRollbackPath(d, f, release, current, isolated) == PrePublicRestore
            <==> && Read(d, f, release).Some? && f.marker.Absent? && isolated
                 && d.watermark(current) == d.watermark(Read(d, f, release).value.baseline)
  {
  }

  /** A completed preparation leads to path one exactly with an isolated proxy and unchanged data. */
  lemma PreparationAllowsPathOne(d: Digests, f: Files, release: nat, a: Attempt, current: nat, isolated: bool)
    requires a.op.Prepare? && Completed(d, f, release, a)
    ensures ChooseRollbackPath(d, AfterAttempt(d, f, release, a), release, current, isolated) == PrePublicRestore
            <==> isolated && d.watermark(current) == d.watermark(a.op.baseline)
  {
    var doc, ws := PreparedDoc(d, release, a.op.baseline, a.op.at), Script(d, f, release, a.op, a.fault);
    assert ws == [TearState, PutState(doc)] + [TearSeal, PutSeal(d.doc(doc))];
    CutMore(f, TearState, PutState(doc), [TearSeal, PutSeal(d.doc(doc))], a.cut);
    CutTwo(f.(state := Whole(doc)), TearSeal, PutSeal(d.doc(doc)), a.cut - 2);
    assert StagesOf(doc.history) == FirstStages(1);
  }

  /** Each completed advance short of the cutover keeps it that way. */
  lemma AdvanceKeepsPathOne(d: Digests, f: Files, release: nat, a: Attempt, current: nat, isolated: bool)
    requires a.op.Advance? && a.op.stage < PUBLIC_CUTOVER && Completed(d, f, release, a)
    ensures ChooseRollbackPath(d, AfterAttempt(d, f, release, a), release, current, isolated)
            == ChooseRollbackPath(d, f, release, current, isolated)
  {
    var doc := Read(d, f, release).value;
    var next := AdvancedDoc(doc, a.op.stage, a.op.at);
    AdvancedIsWellFormed(d, doc, release, a.op.at);
    CutTwo(f, PutState(next), PutSeal(d.doc(next)), a.cut);
  }

  /** The document on disk, if any, records the baseline of one of these attempts. */
  ghost predicate BaselineFrom(d: Digests, f: Files, attempts: set<Attempt>) {
    f.state.Whole? ==>
      exists a | a in attempts :: a.op.Prepare? && f.state.value.baseline == a.op.baseline
  }

  lemma {:induction false} WritesKeepBaseline(d: Digests, f: Files, ws: seq<Write>, attempts: set<Attempt>)
    requires BaselineFrom(d, f, attempts)
    requires forall w | w in ws && w.PutState? ::
               exists a | a in attempts :: a.op.Prepare? && w.doc.baseline == a.op.baseline
    ensures BaselineFrom(d, PerformAll(f, ws), attempts)
    decreases |ws|
  {
    if ws != [] {
      assert ws[0] in ws;
      WritesKeepBaseline(d, Perform(f, ws[0]), ws[1..], attempts);
    }
  }

  lemma AttemptKeepsBaseline(d: Digests, f: Files, release: nat, a: Attempt, attempts: set<Attempt>)
    requires BaselineFrom(d, f, attempts) && a in attempts
    ensures BaselineFrom(d, AfterAttempt(d, f, release, a), attempts)
  {
    var ws := Script(d, f, release, a.op, a.fault);
    forall w | w in ws && w.PutState?
      ensures exists b | b in attempts :: b.op.Prepare? && w.doc.baseline == b.op.baseline
    {
      if a.op.Prepare? {
        assert w.doc.baseline == a.op.baseline;
      } else {
        assert w.doc.baseline == f.state.value.baseline;
      }
    }
    WritesKeepBaseline(d, f, if a.cut <= |ws| then ws[..a.cut] else ws, attempts);
  }

  lemma {:induction false} RunKeepsBaseline(
    d: Digests, f: Files, release: nat, attempts: seq<Attempt>, all: set<Attempt>)
    requires BaselineFrom(d, f, all) && forall a | a in attempts :: a in all
    ensures BaselineFrom(d, AfterAttempts(d, f, release, attempts), all)
    decreases |attempts|
  {
    if attempts != [] {
      AttemptKeepsBaseline(d, f, release, attempts[0], all);
      RunKeepsBaseline(d, AfterAttempt(d, f, release, attempts[0]), release, attempts[1..], all);
    }
  }

  /** Over every run from nothing, path one is chosen only over data with the digest some preparation of it declared. */
  lemma PathOneRestoresPreparedData(d: Digests, release: nat, attempts: seq<Attempt>, current: nat, isolated: bool)
    requires ChooseRollbackPath(d, AfterAttempts(d, NO_FILES, release, attempts), release, current, isolated)
             == PrePublicRestore
    ensures exists a | a in attempts :: a.op.Prepare? && d.watermark(a.op.baseline) == d.watermark(current)
  {
    RunKeepsBaseline(d, NO_FILES, release, attempts, Members(attempts));
    PathOneIff(d, AfterAttempts(d, NO_FILES, release, attempts), release, current, isolated);
    var a :| a in Members(attempts) && a.op.Prepare?
             && AfterAttempts(d, NO_FILES, release, attempts).state.value.baseline == a.op.baseline;
    assert a in attempts;
  }

  /** With a marker on disk, no attempt writes anything. */
  lemma {:induction false} MarkerFreezes(d: Digests, f: Files, release: nat, attempts: seq<Attempt>)
    requires !f.marker.Absent?
    ensures AfterAttempts(d, f, release, attempts) == f
    decreases |attempts|
  {
    if attempts != [] {
      assert Script(d, f, release, attempts[0].op, attempts[0].fault) == [];
      MarkerFreezes(d, f, release, attempts[1..]);
    }
  }

  /**
   Once the proxy could have been started, or even once a cutover attempt left its marker
   behind, no later sequence of attempts, crashes and write errors makes path one possible.
   */
  lemma CutoverIsIrreversible(d: Digests, f: Files, release: nat, attempts: seq<Attempt>, current: nat, isolated: bool)
    requires !f.marker.Absent? || ProxyStartAuthorized(d, f, release)
    ensures ChooseRollbackPath(d, AfterAttempts(d, f, release, attempts), release, current, isolated)
            == PreserveForwardData
  {
    MarkerFreezes(d, f, release, attempts);
    MarkerForbidsPathOne(d, AfterAttempts(d, f, release, attempts), release, current, isolated);
  }

  /** The proxy is authorized only by a whole marker of this release and a complete history. */
  lemma AuthorizationNeedsMarker(d: Digests, f: Files, release: nat)
    requires ProxyStartAuthorized(d, f, release)
    ensures f.marker == Whole(release) && f.state.Whole?
    ensures StagesOf(f.state.value.history) == FirstStages(STAGE_COUNT)
  {
  }

  /** A completed advance to the cutover authorizes the proxy; no attempt before it does. */
  lemma CutoverAuthorizes(d: Digests, f: Files, release: nat, a: Attempt)
    requires !ProxyStartAuthorized(d, f, release) && Completed(d, f, release, a)
    ensures ProxyStartAuthorized(d, AfterAttempt(d, f, release, a), release)
            <==> a.op.Advance? && a.op.stage == PUBLIC_CUTOVER
  {
    var ws := Script(d, f, release, a.op, a.fault);
    if a.op.Prepare? {
      PreparationAllowsPathOne(d, f, release, a, a.op.baseline, true);
    } else {
      var doc := Read(d, f, release).value;
      var next := AdvancedDoc(doc, a.op.stage, a.op.at);
      AdvancedIsWellFormed(d, doc, release, a.op.at);
      if a.op.stage == PUBLIC_CUTOVER {
        assert ws == [ws[0], ws[1]] + [ws[2], ws[3]];
        CutMore(f, ws[0], ws[1], [ws[2], ws[3]], a.cut);
        CutTwo(f.(marker := Whole(release)), ws[2], ws[3], a.cut - 2);
      } else {
        CutTwo(f, ws[0], ws[1], a.cut);
      }
    }
  }

  // ---------------------------------------------------------------------------
  // What a crash leaves readable
  // ---------------------------------------------------------------------------

  /** Two different documents with one digest. */
  ghost predicate Collision(d: Digests, a: StateDoc, b: StateDoc) {
    a != b && d.doc(a) == d.doc(b)
  }

  lemma AdvancedIsWellFormed(d: Digests, doc: StateDoc, release: nat, at: int)
    requires WellFormed(d, doc, release) && doc.stage + 1 < STAGE_COUNT
    ensures WellFormed(d, AdvancedDoc(doc, doc.stage + 1, at), release)
    ensures AdvancedDoc(doc, doc.stage + 1, at) != doc
  {
    var next := AdvancedDoc(doc, doc.stage + 1, at);
    assert |doc.history| == |StagesOf(doc.history)| == doc.stage + 1;
    assert StagesOf(next.history) == StagesOf(doc.history) + [doc.stage + 1];
  }

  /**
   An advance that is cut off leaves the old stage readable if nothing was written, the new
   one if everything was, and otherwise makes every read refuse, unless two documents collide.
   */
  lemma AdvanceIsAllOrRefused(d: Digests, f: Files, release: nat, at: int, cut: nat)
    requires Read(d, f, release).Some? && Read(d, f, release).value.stage + 1 < STAGE_COUNT
    ensures var doc := Read(d, f, release).value;
            var next := AdvancedDoc(doc, doc.stage + 1, at);
            var ws := Script(d, f, release, Advance(doc.stage + 1, at), NoFault);
            var after := Read(d, Cut(f, ws, cut), release);
            Collision(d, doc, next)
            || after == (if cut == 0 then Some(doc) else if cut >= |ws| then Some(next) else None)
  {
    var doc := Read(d, f, release).value;
    var next := AdvancedDoc(doc, doc.stage + 1, at);
    AdvancedIsWellFormed(d, doc, release, at);
    var ws := Script(d, f, release, Advance(doc.stage + 1, at), NoFault);
    if doc.stage + 1 == PUBLIC_CUTOVER {
      assert ws == [ws[0], ws[1]] + [ws[2], ws[3]];
      CutMore(f, ws[0], ws[1], [ws[2], ws[3]], cut);
      if cut >= 2 {
        CutTwo(Perform(Perform(f, ws[0]), ws[1]), ws[2], ws[3], cut - 2);
      }
    } else {
      CutTwo(f, ws[0], ws[1], cut);
    }
  }

  /** A write error while the marker is created undoes it: the old stage stays readable. */
  lemma FailedCutoverIsUndone(d: Digests, f: Files, release: nat, at: int)
    requires Read(d, f, release).Some? && Read(d, f, release).value.stage + 1 == PUBLIC_CUTOVER
    ensures AfterAttempt(d, f, release, Attempt(Advance(PUBLIC_CUTOVER, at), FirstCreate, 2)) == f
  {
    CutTwo(f, TearMarker, DropMarker, 2);
  }

  /** A state file that does not read back is final: no later attempt changes anything. */
  lemma {:induction false} RefusalIsPermanent(d: Digests, f: Files, release: nat, attempts: seq<Attempt>)
    requires !f.state.Absent? && Read(d, f, release).None?
    ensures AfterAttempts(d, f, release, attempts) == f
    decreases |attempts|
  {
    if attempts != [] {
      assert Script(d, f, release, attempts[0].op, attempts[0].fault) == [];
      RefusalIsPermanent(d, f, release, attempts[1..]);
    }
  }

  /** The attempt made every write it planned, and no create failed. */
  predicate Completed(d: Digests, f: Files, release: nat, a: Attempt) {
    var ws := Script(d, f, release, a.op, a.fault);
    ws != [] && a.cut >= |ws| && ws[|ws| - 1].PutSeal?
  }

  function CountCompleted(d: Digests, f: Files, release: nat, attempts: seq<Attempt>): nat
    decreases |attempts|
  {
    if attempts == [] then 0
    else (if Completed(d, f, release, attempts[0]) then 1 else 0)
         + CountCompleted(d, AfterAttempt(d, f, release, attempts[0]), release, attempts[1..])
  }

  /** The attempt advances a readable document to one with the same digest. */
  ghost predicate AdvanceCollides(d: Digests, f: Files, release: nat, a: Attempt) {
    var read := Read(d, f, release);
    && a.op.Advance? && read.Some? && a.op.stage == read.value.stage + 1 < STAGE_COUNT
    && Collision(d, read.value, AdvancedDoc(read.value, a.op.stage, a.op.at))
  }

  /** Some attempt of the run does, in the state it finds. */
  ghost predicate RunCollides(d: Digests, f: Files, release: nat, attempts: seq<Attempt>)
    decreases |attempts|
  {
    attempts != []
    && (AdvanceCollides(d, f, release, attempts[0])
        || RunCollides(d, AfterAttempt(d, f, release, attempts[0]), release, attempts[1..]))
  }

  /** Nothing exists yet, or the readable stage is one behind the number of completed operations. */
  predicate Accounted(d: Digests, f: Files, release: nat, count: nat) {
    && (f.state.Absent? ==> f == NO_FILES && count == 0)
    && (Read(d, f, release).Some? ==> count == Read(d, f, release).value.stage + 1)
  }

  lemma PrepareAccounted(d: Digests, release: nat, a: Attempt)
    requires a.op.Prepare?
    ensures Accounted(d, AfterAttempt(d, NO_FILES, release, a), release,
                      if Completed(d, NO_FILES, release, a) then 1 else 0)
  {
    var f, ws := NO_FILES, Script(d, NO_FILES, release, a.op, a.fault);
    if a.fault.FirstCreate? {
      CutTwo(f, ws[0], ws[1], a.cut);
    } else {
      assert ws == [ws[0], ws[1]] + ws[2..];
      CutMore(f, ws[0], ws[1], ws[2..], a.cut);
      if a.cut >= 2 {
        var g := Perform(Perform(f, ws[0]), ws[1]);
        if a.fault.NoFault? {
          CutTwo(g, ws[2], ws[3], a.cut - 2);
        } else {
          assert ws[2..] == [ws[2], ws[3]] + [ws[4]];
          CutMore(g, ws[2], ws[3], [ws[4]], a.cut - 2);
          if a.cut >= 4 {
            CutStep(Perform(Perform(g, ws[2]), ws[3]), [ws[4]], a.cut - 4);
            assert [ws[4]][1..] == [];
          }
        }
      }
    }
  }

  lemma AdvanceAccounted(d: Digests, f: Files, release: nat, a: Attempt, count: nat)
    requires Accounted(d, f, release, count) && a.op.Advance? && !AdvanceCollides(d, f, release, a)
    ensures Accounted(d, AfterAttempt(d, f, release, a), release,
                      count + if Completed(d, f, release, a) then 1 else 0)
  {
    var ws := Script(d, f, release, a.op, a.fault);
    if ws != [] {
      var doc := Read(d, f, release).value;
      if a.op.stage == PUBLIC_CUTOVER && !a.fault.NoFault? {
        CutTwo(f, ws[0], ws[1], a.cut);
      } else {
        assert ws == Script(d, f, release, Advance(doc.stage + 1, a.op.at), NoFault);
        AdvanceIsAllOrRefused(d, f, release, a.op.at, a.cut);
        AdvanceLeavesState(d, f, release, a.op.at, a.cut);
      }
    }
  }

  /** An advance never leaves the state file absent. */
  lemma AdvanceLeavesState(d: Digests, f: Files, release: nat, at: int, cut: nat)
    requires Read(d, f, release).Some? && Read(d, f, release).value.stage + 1 < STAGE_COUNT
    ensures var ws := Script(d, f, release, Advance(Read(d, f, release).value.stage + 1, at), NoFault);
            !Cut(f, ws, cut).state.Absent?
  {
    var ws := Script(d, f, release, Advance(Read(d, f, release).value.stage + 1, at), NoFault);
    if |ws| == 4 {
      assert ws == [ws[0], ws[1]] + [ws[2], ws[3]];
      CutMore(f, ws[0], ws[1], [ws[2], ws[3]], cut);
      if cut >= 2 {
        CutTwo(Perform(Perform(f, ws[0]), ws[1]), ws[2], ws[3], cut - 2);
      }
    } else {
      CutTwo(f, ws[0], ws[1], cut);
    }
  }

  lemma {:induction false} RunAccounted(d: Digests, f: Files, release: nat, attempts: seq<Attempt>, count: nat)
    requires Accounted(d, f, release, count) && !RunCollides(d, f, release, attempts)
    ensures Accounted(d, AfterAttempts(d, f, release, attempts), release,
                      count + CountCompleted(d, f, release, attempts))
    decreases |attempts|
  {
    if attempts != [] {
      var a := attempts[0];
      if a.op.Advance? {
        AdvanceAccounted(d, f, release, a, count);
      } else if f.state.Absent? {
        PrepareAccounted(d, release, a);
      } else {
        assert Script(d, f, release, a.op, a.fault) == [];
      }
      RunAccounted(d, AfterAttempt(d, f, release, a), release, attempts[1..],
                   count + if Completed(d, f, release, a) then 1 else 0);
    }
  }

  /**
   Over every run from nothing: a stage that can be read was reached by exactly one completed
   preparation and one completed advance per further stage, unless some attempt of that run advanced a document to one
   with the same digest.
   */
  lemma ReadableStageCountsOperations(d: Digests, release: nat, attempts: seq<Attempt>)
    requires Read(d, AfterAttempts(d, NO_FILES, release, attempts), release).Some?
    ensures RunCollides(d, NO_FILES, release, attempts)
            || Read(d, AfterAttempts(d, NO_FILES, release, attempts), release).value.stage + 1
               == CountCompleted(d, NO_FILES, release, attempts)
    ensures var doc := Read(d, AfterAttempts(d, NO_FILES, release, attempts), release).value;
            StagesOf(doc.history) == FirstStages(doc.stage + 1)
  {
    if !RunCollides(d, NO_FILES, release, attempts) {
      RunAccounted(d, NO_FILES, release, attempts, 0);
    }
  }

  // ---------------------------------------------------------------------------
  // The store
  // ---------------------------------------------------------------------------

  datatype Reply = Returned(doc: StateDoc) | Raised | Died

  /** The three files, and the number of writes left before the process dies. */
  class PublicationState {
    const digests: Digests
    const release: nat
    var files: Files
    var budget: nat

    constructor (digests: Digests, release: nat, files: Files, budget: nat)
      ensures this.digests == digests && this.release == release && this.files == files && this.budget == budget
    {
      this.digests, this.release, this.files, this.budget := digests, release, files, budget;
    }

    method Write(w: Write) returns (alive: bool)
      modifies this
      ensures alive == (old(budget) > 0)
      ensures budget == if alive then old(budget) - 1 else old(budget)
      ensures files == if alive then Perform(old(files), w) else old(files)
    {
      alive := budget > 0;
      if alive {
        budget, files := budget - 1, Perform(files, w);
      }
    }

    /** Create the document and its seal, each exclusively; undo the document if the seal fails. */
    method Prepare(baseline: nat, at: int, fault: Fault) returns (reply: Reply)
      modifies this
      ensures var ws := Script(digests, old(files), release, Op.Prepare(baseline, at), fault);
              && files == Cut(old(files), ws, old(budget))
              && (reply.Died? <==> old(budget) < |ws|)
              && (reply.Returned? <==> ws != [] && old(budget) >= |ws| && ws[|ws| - 1].PutSeal?)
              && (reply.Returned? ==> Read(digests, files, release) == Some(reply.doc))
    {
      if !files.marker.Absent? || !files.state.Absent? {
        return Raised;
      }
      var doc := PreparedDoc(digests, release, baseline, at);
      ghost var ws := Script(digests, files, release, Op.Prepare(baseline, at), fault);
      ghost var f, n := files, budget;
      var alive;
      if fault.FirstCreate? {
        CutTwo(f, TearState, DropState, n);
        alive := Write(TearState);
        if alive { alive := Write(DropState); }
        return if alive then Raised else Died;
      }
      assert ws == [TearState, PutState(doc)] + ws[2..];
      CutMore(f, TearState, PutState(doc), ws[2..], n);
      alive := Write(TearState);
      if alive { alive := Write(PutState(doc)); }
      if !alive { return Died; }
      f, n := files, budget;
      if !files.seal.Absent? {
        CutStep(f, [DropState], n);
        alive := Write(DropState);
        return if alive then Raised else Died;
      }
      if fault.SecondCreate? {
        assert ws[2..] == [TearSeal, DropSeal] + [DropState];
        CutMore(f, TearSeal, DropSeal, [DropState], n);
        alive := Write(TearSeal);
        if alive { alive := Write(DropSeal); }
        if !alive { return Died; }
        CutStep(files, [DropState], budget);
        alive := Write(DropState);
        return if alive then Raised else Died;
      }
      assert ws[2..] == [TearSeal, PutSeal(digests.doc(doc))];
      CutTwo(f, TearSeal, PutSeal(digests.doc(doc)), n);
      alive := Write(TearSeal);
      if alive { alive := Write(PutSeal(digests.doc(doc))); }
      assert StagesOf(doc.history) == FirstStages(1);
      reply := if alive then Returned(doc) else Died;
    }

    /** Advance by exactly one stage; the cutover marker is written before anything else. */
    method Advance(stage: nat, at: int, fault: Fault) returns (reply: Reply)
      modifies this
      ensures var ws := Script(digests, old(files), release, Op.Advance(stage, at), fault);
              && files == Cut(old(files), ws, old(budget))
              && (reply.Died? <==> old(budget) < |ws|)
              && (reply.Returned? <==> ws != [] && old(budget) >= |ws| && ws[|ws| - 1].PutSeal?)
              && (reply.Returned? ==> Read(digests, files, release) == Some(reply.doc) && reply.doc.stage == stage)
    {
      var read := Read(digests, files, release);
      if read.None? || stage >= STAGE_COUNT || stage != read.value.stage + 1 {
        return Raised;
      }
      var doc := AdvancedDoc(read.value, stage, at);
      AdvancedIsWellFormed(digests, read.value, release, at);
      var seal := digests.doc(doc);
      var alive;
      if stage == PUBLIC_CUTOVER {
        if !fault.NoFault? {
          CutTwo(files, TearMarker, DropMarker, budget);
          alive := Write(TearMarker);
          if alive { alive := Write(DropMarker); }
          return if alive then Raised else Died;
        }
        assert [TearMarker, PutMarker(release), PutState(doc), PutSeal(seal)]
            == [TearMarker, PutMarker(release)] + [PutState(doc), PutSeal(seal)];
        CutMore(files, TearMarker, PutMarker(release), [PutState(doc), PutSeal(seal)], budget);
        alive := Write(TearMarker);
        if alive { alive := Write(PutMarker(release)); }
        if !alive { return Died; }
      }
      CutTwo(files, PutState(doc), PutSeal(seal), budget);
      alive := Write(PutState(doc));
      if alive { alive := Write(PutSeal(seal)); }
      reply := if alive then Returned(doc) else Died;
    }
  }
}
