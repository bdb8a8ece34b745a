/**
 The restore state machine: commands that may fail, be retried or be repeated, over one
 atomically replaced checkpoint with a growing history.
 */
module RestoreStages {
  import opened Basics

  const DECLARED := 0
  const PREFLIGHT_COMPLETE := 1
  const SITE_RETAINED := 2
  const DATABASE_RESTORED := 3
  const FILES_COMPLETE := 4
  const OFFLINE_VALIDATED := 5
  const FUNCTIONAL_VALIDATED := 6
  const PROXY_AUTHORIZED := 7
  const EXTERNAL_READY := 8
  const ROLLED_BACK := 9

  /** One entry of the history; only external readiness carries elapsed seconds. */
  datatype Item = Item(stage: nat, elapsed: Option<int>)

  datatype Checkpoint = Checkpoint(stage: nat, declaredAt: int, history: seq<Item>)

  /** The verified marker as the remote keeps it: the manifest it binds and the history it attests. */
  datatype Marker = Marker(manifest: nat, history: seq<Item>)

  datatype State = State(checkpoint: Option<Checkpoint>, marker: Option<Marker>)

  const FRESH := State(None, None)

  datatype Reply = Done | Ready(elapsed: int) | Refused

  /**
   A command and what happens inside it: `works` says that everything between its checks and
   its checkpoint write succeeded, `now` is the clock in seconds, and the last two fields of
   ExternalReady say which manifest it reads and whether the steps after the checkpoint work.
   */
  datatype Command =
    | Declare(now: int)
    | Preflight(now: int, works: bool)
    | RetainSite(works: bool)
    | RestoreDatabase(works: bool)
    | RestoreFiles(works: bool)
    | OfflineValidate(works: bool)
    | FunctionalValidate(works: bool)
    | AuthorizeProxy(works: bool)
    | ExternalReady(now: int, manifest: nat, works: bool)
    | RollbackSite(works: bool)

  // ---------------------------------------------------------------------------
  // The checkpoint operations
  // ---------------------------------------------------------------------------

  /** A missing checkpoint reads as declared with an empty history. */
  function StageOf(s: State): nat {
    if s.checkpoint.Some? then s.checkpoint.value.stage else DECLARED
  }

  function HistoryOf(s: State): seq<Item> {
    if s.checkpoint.Some? then s.checkpoint.value.history else []
  }

  function Declared(s: State, now: int): State {
    if s.checkpoint.Some? then s else s.(checkpoint := Some(Checkpoint(DECLARED, now, [])))
  }

  /** Move to a stage, refusing to go back or to skip; staying put adds nothing. */
  function Advance(s: State, stage: nat, elapsed: Option<int>): Option<State> {
    if s.checkpoint.None? || stage < StageOf(s) || stage > StageOf(s) + 1 then None
    else if stage == StageOf(s) then Some(s)
    else
      var c := s.checkpoint.value;
      Some(s.(checkpoint := Some(c.(stage := stage, history := c.history + [Item(stage, elapsed)]))))
  }

  /** The stage is done; a rolled-back restore answers nothing. */
  function Completed(s: State, stage: nat): Option<bool> {
    if StageOf(s) == ROLLED_BACK then None else Some(StageOf(s) >= stage)
  }

  /** The elapsed seconds of the latest external-readiness entry. */
  function RecordedElapsed(history: seq<Item>): Option<int> {
    if history == [] then None
    else
      var last := history[|history| - 1];
      if last.stage == EXTERNAL_READY then last.elapsed
      else RecordedElapsed(history[..|history| - 1])
  }

  /** A stage command that skips its work when done, and otherwise needs the stage before it. */
  function StageCommand(s: State, stage: nat, repeats: bool, works: bool): (State, Reply)
    requires stage > 0
  {
    var done := Completed(s, stage);
    if done.None? then (s, Refused)
    else if done.value && !repeats then (s, Done)
    else if !done.value && StageOf(s) != stage - 1 then (s, Refused)
    else if !works then (s, Refused)
    else if done.value then (s, Done)
    else
      match Advance(s, stage, None)
      case Some(next) => (next, Done)
      case None => (s, Refused)
  }

  function PreflightCommand(s: State, now: int, works: bool): (State, Reply) {
    var d := Declared(s, now);
    if !works then (d, Refused)
    else
      match Completed(d, PREFLIGHT_COMPLETE)
      case None => (d, Refused)
      case Some(true) => (d, Done)
      case Some(false) =>
        match Advance(d, PREFLIGHT_COMPLETE, None)
        case Some(next) => (next, Done)
        case None => (d, Refused)
  }

  /** Publish the marker, or check the one that is there. */
  function PublishMarker(s: State, manifest: nat, elapsed: int, works: bool): (State, Reply) {
    if !works then (s, Refused)
    else if s.marker.Some? then
      if s.marker.value.manifest == manifest then (s, Ready(elapsed)) else (s, Refused)
    else (s.(marker := Some(Marker(manifest, HistoryOf(s)))), Ready(elapsed))
  }

  function ExternalReadyCommand(s: State, limit: int, now: int, manifest: nat, works: bool): (State, Reply) {
    match Completed(s, EXTERNAL_READY)
    case None => (s, Refused)
    case Some(true) =>
      (match RecordedElapsed(HistoryOf(s))
       case None => (s, Refused)
       case Some(elapsed) => PublishMarker(s, manifest, elapsed, works))
    case Some(false) =>
      if StageOf(s) != PROXY_AUTHORIZED then (s, Refused)
      else
        var elapsed := now - s.checkpoint.value.declaredAt;
        if elapsed < 0 || elapsed > limit then (s, Refused)
        else
          match Advance(s, EXTERNAL_READY, Some(elapsed))
          case None => (s, Refused)
          case Some(next) => PublishMarker(next, manifest, elapsed, works)
  }

  function RollbackCommand(s: State, works: bool): (State, Reply) {
    if StageOf(s) < SITE_RETAINED || !works then (s, Refused)
    else
      var c := s.checkpoint.value;
      (s.(checkpoint := Some(c.(stage := ROLLED_BACK, history := c.history + [Item(ROLLED_BACK, None)]))), Done)
  }

  function Step(s: State, limit: int, cmd: Command): (State, Reply) {
    match cmd
    case Declare(now) => (Declared(s, now), Done)
    case Preflight(now, works) => PreflightCommand(s, now, works)
    case RetainSite(works) => StageCommand(s, SITE_RETAINED, false, works)
    case RestoreDatabase(works) => StageCommand(s, DATABASE_RESTORED, false, works)
    case RestoreFiles(works) => StageCommand(s, FILES_COMPLETE, false, works)
    case OfflineValidate(works) => StageCommand(s, OFFLINE_VALIDATED, true, works)
    case FunctionalValidate(works) => StageCommand(s, FUNCTIONAL_VALIDATED, true, works)
    case AuthorizeProxy(works) => StageCommand(s, PROXY_AUTHORIZED, false, works)
    case ExternalReady(now, manifest, works) => ExternalReadyCommand(s, limit, now, manifest, works)
    case RollbackSite(works) => RollbackCommand(s, works)
  }

  function Run(s: State, limit: int, cmds: seq<Command>): State {
    if cmds == [] then s else Step(Run(s, limit, cmds[..|cmds| - 1]), limit, cmds[|cmds| - 1]).0
  }

  // ---------------------------------------------------------------------------
  // Which command carries out which stage
  // ---------------------------------------------------------------------------

  /** The command whose work a history entry stands for. */
  function CommandOf(cmd: Command): Option<nat> {
    match cmd
    case Declare(_) => None
    case Preflight(_, _) => Some(1)
    case RetainSite(_) => Some(2)
    case RestoreDatabase(_) => Some(3)
    case RestoreFiles(_) => Some(4)
    case OfflineValidate(_) => Some(5)
    case FunctionalValidate(_) => Some(6)
    case AuthorizeProxy(_) => Some(7)
    case ExternalReady(_, _, _) => Some(8)
    case RollbackSite(_) => Some(9)
  }

  /** What is inside the command worked; the steps after readiness come after its entry. */
  predicate Worked(cmd: Command) {
    cmd.Declare? || cmd.ExternalReady? || cmd.works
  }

  lemma StepRecordsItsStage(s: State, limit: int, cmd: Command)
    ensures var s' := Step(s, limit, cmd).0;
            || HistoryOf(s') == HistoryOf(s)
            || (&& Worked(cmd) && |HistoryOf(s')| == |HistoryOf(s)| + 1 && HistoryOf(s')[..|HistoryOf(s)|] == HistoryOf(s)
                && CommandOf(cmd) == Some(HistoryOf(s')[|HistoryOf(s)|].stage))
  {
  }

  /**
   In every run each entry of the history was made by the command for that stage, whose work succeeded, when exactly the
   entries before it were there.
   */
  lemma {:induction false} EveryEntryHasItsCommand(limit: int, cmds: seq<Command>, i: nat)
    requires i < |HistoryOf(Run(FRESH, limit, cmds))|
    ensures exists j: nat | j < |cmds| ::
              && Worked(cmds[j]) && CommandOf(cmds[j]) == Some(HistoryOf(Run(FRESH, limit, cmds))[i].stage)
              && HistoryOf(Run(FRESH, limit, cmds[..j])) == HistoryOf(Run(FRESH, limit, cmds))[..i]
  {
    if cmds != [] {
      var n := |cmds| - 1;
      var before, history := Run(FRESH, limit, cmds[..n]), HistoryOf(Run(FRESH, limit, cmds));
      StepRecordsItsStage(before, limit, cmds[n]);
      hide Step;
      if i < |HistoryOf(before)| {
        EveryEntryHasItsCommand(limit, cmds[..n], i);
        var j: nat :| j < n
          && Worked(cmds[..n][j]) && CommandOf(cmds[..n][j]) == Some(HistoryOf(before)[i].stage)
          && HistoryOf(Run(FRESH, limit, cmds[..n][..j])) == HistoryOf(before)[..i];
        assert cmds[..n][..j] == cmds[..j] && cmds[..n][j] == cmds[j];
        assert history[..i] == HistoryOf(before)[..i];
      } else {
        assert history[..i] == HistoryOf(before);
      }
    }
  }

  /**
   A stage command repeated after its stage changes nothing. The two validations do their work again and answer for it;
   every other one answers at once.
   */
  lemma RepeatedStageCommand(s: State, limit: int, cmd: Command)
    requires CommandOf(cmd).Some? && 2 <= CommandOf(cmd).value <= 7
    requires CommandOf(cmd).value <= StageOf(s) && StageOf(s) != ROLLED_BACK
    ensures Step(s, limit, cmd)
            == (s, if (cmd.OfflineValidate? || cmd.FunctionalValidate?) && !cmd.works then Refused else Done)
  {
  }

  function FirstItems(n: nat): seq<Item> {
    seq(n, i requires 0 <= i < n => Item(i + 1, None))
  }

  /** The commands for the stages 1, 2, 3 and so on, each with working insides. */
  predicate InOrder(cmds: seq<Command>) {
    forall i | 0 <= i < |cmds| :: CommandOf(cmds[i]) == Some(i + 1) && Worked(cmds[i])
  }

  /** That is the documented order. */
  lemma OrderIsTheDocumentedOne(start: int, end: int, manifest: nat)
    ensures InOrder([Preflight(start, true), RetainSite(true), RestoreDatabase(true), RestoreFiles(true),
                     OfflineValidate(true), FunctionalValidate(true), AuthorizeProxy(true),
                     ExternalReady(end, manifest, true)])
  {
  }

  lemma {:induction false} WorkingStages(limit: int, cmds: seq<Command>)
    requires InOrder(cmds) && 0 < |cmds| < EXTERNAL_READY
    ensures Run(FRESH, limit, cmds)
            == State(Some(Checkpoint(|cmds|, cmds[0].now, FirstItems(|cmds|))), None)
  {
    var n := |cmds| - 1;
    assert FirstItems(n + 1) == FirstItems(n) + [Item(n + 1, None)];
    if n == 0 {
      assert Run(FRESH, limit, cmds[..n]) == FRESH;
      assert cmds[0].Preflight?;
    } else {
      WorkingStages(limit, cmds[..n]);
      assert Step(Run(FRESH, limit, cmds[..n]), limit, cmds[n]).0 == Run(FRESH, limit, cmds);
    }
  }

  /** The documented order, in time and with a marker that can be published, ends with the whole history attested. */
  lemma DocumentedOrderCompletes(limit: int, cmds: seq<Command>)
    requires InOrder(cmds) && |cmds| == EXTERNAL_READY
    requires cmds[0].Preflight? && cmds[7].ExternalReady? && cmds[7].works && 0 <= cmds[7].now - cmds[0].now <= limit
    ensures var history := FirstItems(7) + [Item(EXTERNAL_READY, Some(cmds[7].now - cmds[0].now))];
            && Run(FRESH, limit, cmds)
               == State(Some(Checkpoint(EXTERNAL_READY, cmds[0].now, history)), Some(Marker(cmds[7].manifest, history)))
            && Step(Run(FRESH, limit, cmds[..7]), limit, cmds[7]).1 == Ready(cmds[7].now - cmds[0].now)
  {
    WorkingStages(limit, cmds[..7]);
  }

  // ---------------------------------------------------------------------------
  // The shape of every history
  // ---------------------------------------------------------------------------

  /** Stages 1 to k without a gap or a repeat, then any number of rollbacks. */
  predicate GapFree(history: seq<Item>, k: nat) {
    && k <= EXTERNAL_READY && k <= |history|
    && (forall i | 0 <= i < k :: history[i].stage == i + 1)
    && (forall i | k <= i < |history| :: history[i].stage == ROLLED_BACK)
    && (|history| > k ==> k >= SITE_RETAINED)
  }

  predicate Within(history: seq<Item>, k: nat, limit: int)
    requires GapFree(history, k)
  {
    k == EXTERNAL_READY ==>
      history[EXTERNAL_READY - 1].elapsed.Some? && 0 <= history[EXTERNAL_READY - 1].elapsed.value <= limit
  }

  /** The checkpoint agrees with a gap-free history, and a marker attests a full one. */
  predicate Sound(s: State, limit: int, k: nat) {
    && GapFree(HistoryOf(s), k)
    && StageOf(s) == (if |HistoryOf(s)| > k then ROLLED_BACK else k)
    && Within(HistoryOf(s), k, limit)
    && (s.marker.Some? ==> k == EXTERNAL_READY && s.marker.value.history == HistoryOf(s)[..k])
  }

  lemma RecordedIs(history: seq<Item>, k: nat)
    requires GapFree(history, k)
    ensures RecordedElapsed(history) == if k == EXTERNAL_READY then history[EXTERNAL_READY - 1].elapsed else None
  {
    if history != [] {
      var n := |history| - 1;
      if n >= k {
        RecordedIs(history[..n], k);
      } else if k < EXTERNAL_READY {
        RecordedNone(history);
      }
    }
  }

  lemma RecordedNone(history: seq<Item>)
    requires forall i | 0 <= i < |history| :: history[i].stage != EXTERNAL_READY
    ensures RecordedElapsed(history) == None
  {
    if history != [] {
      RecordedNone(history[..|history| - 1]);
    }
  }

  /** How far the history may move in one step. */
  function NextK(s: State, s': State, k: nat): nat {
    if |HistoryOf(s')| > |HistoryOf(s)| && StageOf(s') != ROLLED_BACK then k + 1 else k
  }

  lemma HistoryGrows(history: seq<Item>, k: nat, item: Item)
    requires GapFree(history, k) && |history| == k < EXTERNAL_READY && item.stage == k + 1
    ensures GapFree(history + [item], k + 1)
  {
  }

  lemma StageKeepsSound(s: State, limit: int, stage: nat, repeats: bool, works: bool, k: nat)
    requires Sound(s, limit, k) && 0 < stage < EXTERNAL_READY
    ensures Sound(StageCommand(s, stage, repeats, works).0, limit, NextK(s, StageCommand(s, stage, repeats, works).0, k))
  {
    if |HistoryOf(s)| == k < EXTERNAL_READY {
      HistoryGrows(HistoryOf(s), k, Item(k + 1, None));
    }
  }

  lemma ReadyKeepsSound(s: State, limit: int, now: int, manifest: nat, works: bool, k: nat)
    requires Sound(s, limit, k)
    ensures var s' := ExternalReadyCommand(s, limit, now, manifest, works).0; Sound(s', limit, NextK(s, s', k))
  {
    RecordedIs(HistoryOf(s), k);
    var history := HistoryOf(s);
    assert |history| == k ==> history[..k] == history;
    if s.checkpoint.Some? && |history| == k == PROXY_AUTHORIZED {
      var item := Item(EXTERNAL_READY, Some(now - s.checkpoint.value.declaredAt));
      HistoryGrows(history, k, item);
      assert (history + [item])[..EXTERNAL_READY] == history + [item];
    }
  }

  lemma RollbackKeepsSound(s: State, limit: int, works: bool, k: nat)
    requires Sound(s, limit, k)
    ensures Sound(RollbackCommand(s, works).0, limit, NextK(s, RollbackCommand(s, works).0, k))
  {
    var history := HistoryOf(s);
    assert (history + [Item(ROLLED_BACK, None)])[..k] == history[..k];
  }

  lemma StepKeepsSound(s: State, limit: int, cmd: Command, k: nat)
    requires Sound(s, limit, k)
    ensures Sound(Step(s, limit, cmd).0, limit, NextK(s, Step(s, limit, cmd).0, k))
  {
    match cmd
    case Declare(now) =>
    case Preflight(now, works) =>
      if |HistoryOf(s)| == k == DECLARED {
        HistoryGrows(HistoryOf(s), k, Item(PREFLIGHT_COMPLETE, None));
      }
    case RetainSite(works) => StageKeepsSound(s, limit, SITE_RETAINED, false, works, k);
    case RestoreDatabase(works) => StageKeepsSound(s, limit, DATABASE_RESTORED, false, works, k);
    case RestoreFiles(works) => StageKeepsSound(s, limit, FILES_COMPLETE, false, works, k);
    case OfflineValidate(works) => StageKeepsSound(s, limit, OFFLINE_VALIDATED, true, works, k);
    case FunctionalValidate(works) => StageKeepsSound(s, limit, FUNCTIONAL_VALIDATED, true, works, k);
    case AuthorizeProxy(works) => StageKeepsSound(s, limit, PROXY_AUTHORIZED, false, works, k);
    case ExternalReady(now, manifest, works) => ReadyKeepsSound(s, limit, now, manifest, works, k);
    case RollbackSite(works) => RollbackKeepsSound(s, limit, works, k);
  }

  /**
   After any sequence of commands, failed, retried or repeated: the history is a gap-free,
   repeat-free prefix of the stages, followed only by rollbacks, and a verified marker attests
   exactly the eight completed stages.
   */
  lemma {:induction false} EveryRunIsGapFree(limit: int, cmds: seq<Command>) returns (k: nat)
    ensures Sound(Run(FRESH, limit, cmds), limit, k)
  {
    if cmds == [] {
      k := 0;
    } else {
      var n := |cmds| - 1;
      var before := EveryRunIsGapFree(limit, cmds[..n]);
      var s := Run(FRESH, limit, cmds[..n]);
      StepKeepsSound(s, limit, cmds[n], before);
      k := NextK(s, Step(s, limit, cmds[n]).0, before);
    }
  }

  /** After a rollback, no command but another rollback changes the state or reports success, except a bare declare. */
  lemma RollbackIsFinal(limit: int, cmds: seq<Command>, cmd: Command)
    requires StageOf(Run(FRESH, limit, cmds)) == ROLLED_BACK && !cmd.RollbackSite?
    ensures var s := Run(FRESH, limit, cmds);
            Step(s, limit, cmd).0 == s && (cmd.Declare? || Step(s, limit, cmd).1 == Refused)
  {
  }

  /** Once readiness was reported, every later successful report gives the same elapsed time, within the limit. */
  lemma ElapsedIsStable(limit: int, cmds: seq<Command>, first: Command, between: seq<Command>, again: Command)
    requires first.ExternalReady? && again.ExternalReady?
    requires Step(Run(FRESH, limit, cmds), limit, first).1.Ready?
    requires Step(Run(FRESH, limit, cmds + [first] + between), limit, again).1.Ready?
    ensures var e := Step(Run(FRESH, limit, cmds), limit, first).1.elapsed;
            && 0 <= e <= limit
            && Step(Run(FRESH, limit, cmds + [first] + between), limit, again).1.elapsed == e
  {
    var s := Run(FRESH, limit, cmds);
    var k := EveryRunIsGapFree(limit, cmds);
    var s1 := Step(s, limit, first).0;
    var k1 := EveryRunIsGapFree(limit, cmds + [first]);
    assert (cmds + [first])[..|cmds|] == cmds;
    RecordedIs(HistoryOf(s), k);
    RecordedIs(HistoryOf(s1), k1);
    assert Step(s, limit, first).1.elapsed == HistoryOf(s1)[EXTERNAL_READY - 1].elapsed.value;
    HistoryIsExtended(limit, cmds + [first], between);
    var t := Run(FRESH, limit, cmds + [first] + between);
    var k2 := EveryRunIsGapFree(limit, cmds + [first] + between);
    RecordedIs(HistoryOf(t), k2);
  }

  /** A history only ever grows at its end. */
  lemma {:induction false} HistoryIsExtended(limit: int, cmds: seq<Command>, more: seq<Command>)
    ensures HistoryOf(Run(FRESH, limit, cmds)) <= HistoryOf(Run(FRESH, limit, cmds + more))
  {
    if more == [] {
      assert cmds + more == cmds;
    } else {
      var n := |more| - 1;
      HistoryIsExtended(limit, cmds, more[..n]);
      assert (cmds + more)[..|cmds| + n] == cmds + more[..n];
      StepExtends(Run(FRESH, limit, cmds + more[..n]), limit, more[n]);
    }
  }

  lemma StepExtends(s: State, limit: int, cmd: Command)
    ensures HistoryOf(s) <= HistoryOf(Step(s, limit, cmd).0)
  {
  }

  /** A failed command leaves the history as it was, unless only the marker upload failed. */
  lemma FailureKeepsHistory(s: State, limit: int, cmd: Command)
    requires Step(s, limit, cmd).1 == Refused
    ensures var s' := Step(s, limit, cmd).0;
            HistoryOf(s') == HistoryOf(s) || (cmd.ExternalReady? && StageOf(s') == EXTERNAL_READY)
    ensures Step(s, limit, cmd).0.marker == s.marker
  {
  }

  // ---------------------------------------------------------------------------
  // Several operations on one backup
  // ---------------------------------------------------------------------------

  type OperationId = nat

  /** Every operation has its own checkpoint, but the marker's key is that of the backup. */
  datatype Shared = Shared(checkpoints: map<OperationId, Checkpoint>, marker: Option<Marker>)

  function ViewOf(s: Shared, op: OperationId): State {
    State(if op in s.checkpoints then Some(s.checkpoints[op]) else None, s.marker)
  }

  function SharedStep(s: Shared, limit: int, op: OperationId, cmd: Command): Shared {
    var t := Step(ViewOf(s, op), limit, cmd).0;
    Shared(if t.checkpoint.Some? then s.checkpoints[op := t.checkpoint.value] else s.checkpoints, t.marker)
  }

  function SharedRun(limit: int, cmds: seq<(OperationId, Command)>): Shared {
    if cmds == [] then Shared(map[], None)
    else
      var (op, cmd) := cmds[|cmds| - 1];
      SharedStep(SharedRun(limit, cmds[..|cmds| - 1]), limit, op, cmd)
  }

  /** The operation has a full history, and the marker attests its eight stages. */
  predicate Attested(s: Shared, op: OperationId) {
    && s.marker.Some? && GapFree(HistoryOf(ViewOf(s, op)), EXTERNAL_READY)
    && s.marker.value.history == HistoryOf(ViewOf(s, op))[..EXTERNAL_READY]
  }

  ghost predicate SoundAlone(s: State, limit: int) {
    exists k: nat :: Sound(s.(marker := None), limit, k)
  }

  ghost predicate SharedSound(s: Shared, limit: int) {
    && (forall op: OperationId :: SoundAlone(ViewOf(s, op), limit))
    && (s.marker.Some? ==> exists op: OperationId :: Attested(s, op))
  }

  /** A command treats its checkpoint alike whatever the marker is, and never replaces a marker. */
  lemma MarkerIsApart(s: State, limit: int, cmd: Command)
    ensures Step(s, limit, cmd).0.checkpoint == Step(s.(marker := None), limit, cmd).0.checkpoint
    ensures s.marker.Some? ==> Step(s, limit, cmd).0.marker == s.marker
  {}

  lemma OwnStep(s: Shared, limit: int, op: OperationId, cmd: Command)
    requires SharedSound(s, limit)
    ensures var t := SharedStep(s, limit, op, cmd);
            && ViewOf(t, op) == Step(ViewOf(s, op), limit, cmd).0
            && SoundAlone(ViewOf(t, op), limit)
            && HistoryOf(ViewOf(s, op)) <= HistoryOf(ViewOf(t, op))
            && (s.marker.None? && t.marker.Some? ==> Attested(t, op))
  {
    var alone := ViewOf(s, op).(marker := None);
    var k: nat :| Sound(alone, limit, k);
    MarkerIsApart(ViewOf(s, op), limit, cmd);
    StepKeepsSound(alone, limit, cmd, k);
    StepExtends(ViewOf(s, op), limit, cmd);
    StepKeepsCheckpoint(ViewOf(s, op), limit, cmd);
    var after := Step(alone, limit, cmd).0;
    var n := NextK(alone, after, k);
    assert Sound(after.(marker := None), limit, n);
  }

  lemma StepKeepsCheckpoint(s: State, limit: int, cmd: Command)
    ensures s.checkpoint.Some? ==> Step(s, limit, cmd).0.checkpoint.Some?
  {}

  /**
   However the commands of several operations on one backup are mixed, each operation keeps a gap-free history, and the
   marker they share attests the full history of one of them.
   */
  lemma {:induction false} OperationsShareOneMarker(limit: int, cmds: seq<(OperationId, Command)>)
    ensures SharedSound(SharedRun(limit, cmds), limit)
  {
    if cmds == [] {
      assert forall op: OperationId :: Sound(ViewOf(SharedRun(limit, []), op).(marker := None), limit, 0);
    } else {
      var s := SharedRun(limit, cmds[..|cmds| - 1]);
      var (op, cmd) := cmds[|cmds| - 1];
      var t := SharedStep(s, limit, op, cmd);
      OperationsShareOneMarker(limit, cmds[..|cmds| - 1]);
      OwnStep(s, limit, op, cmd);
      MarkerIsApart(ViewOf(s, op), limit, cmd);
      forall other: OperationId
        ensures SoundAlone(ViewOf(t, other), limit)
      {
        if other != op {
          assert ViewOf(t, other).checkpoint == ViewOf(s, other).checkpoint;
          assert SoundAlone(ViewOf(s, other), limit);
          assert ViewOf(t, other).(marker := None) == ViewOf(s, other).(marker := None);
        }
      }
      if s.marker.Some? {
        var holder: OperationId :| Attested(s, holder);
        StillAttested(s, limit, op, cmd, holder);
      }
    }
  }

  lemma StillAttested(s: Shared, limit: int, op: OperationId, cmd: Command, attested: OperationId)
    requires SharedSound(s, limit) && Attested(s, attested)
    ensures Attested(SharedStep(s, limit, op, cmd), attested)
  {
    var t := SharedStep(s, limit, op, cmd);
    OwnStep(s, limit, op, cmd);
    MarkerIsApart(ViewOf(s, op), limit, cmd);
    if op == attested {
      var k: nat :| Sound(ViewOf(t, op).(marker := None), limit, k);
      var before, after := HistoryOf(ViewOf(s, op)), HistoryOf(ViewOf(t, op));
      assert after[..EXTERNAL_READY] == before[..EXTERNAL_READY];
      assert before[EXTERNAL_READY - 1].stage == EXTERNAL_READY && after[EXTERNAL_READY - 1].stage == EXTERNAL_READY;
    } else {
      assert ViewOf(t, attested).checkpoint == ViewOf(s, attested).checkpoint;
    }
  }

  // ---------------------------------------------------------------------------
  // The engine
  // ---------------------------------------------------------------------------

  /** Nothing but the stage and the end of the history changes, and the history grows by this entry or by none. */
  predicate GrowsBy(before: State, after: State, grows: bool, item: Item) {
    && before.checkpoint.Some? && after.checkpoint.Some? && after.marker == before.marker
    && after.checkpoint.value.declaredAt == before.checkpoint.value.declaredAt
    && HistoryOf(after) == HistoryOf(before) + if grows then [item] else []
  }

  /** One restore operation: its checkpoint file and its marker on the remote. */
  class RestoreEngine {
    const limit: int
    var state: State

    constructor (limit: int)
      ensures state == FRESH && this.limit == limit
    {
      this.limit, state := limit, FRESH;
    }

    method Declare(now: int)
      modifies this
      ensures state == Step(old(state), limit, Command.Declare(now)).0
      ensures state.checkpoint.Some? && state.marker == old(state).marker
      ensures HistoryOf(state) == HistoryOf(old(state)) && StageOf(state) == StageOf(old(state))
      ensures old(state).checkpoint.Some? ==> state == old(state)
      ensures old(state).checkpoint.None? ==> state.checkpoint.value.declaredAt == now
    {
      if state.checkpoint.None? {
        state := state.(checkpoint := Some(Checkpoint(DECLARED, now, [])));
      }
    }

    /** Read the checkpoint, refuse a regression or a skipped stage, and write it back. */
    method MoveTo(stage: nat, elapsed: Option<int>) returns (ok: bool)
      modifies this
      ensures ok == Advance(old(state), stage, elapsed).Some?
      ensures state == if ok then Advance(old(state), stage, elapsed).value else old(state)
      ensures ok <==> old(state).checkpoint.Some? && StageOf(old(state)) <= stage <= StageOf(old(state)) + 1
      ensures ok ==> StageOf(state) == stage && GrowsBy(old(state), state, stage > StageOf(old(state)), Item(stage, elapsed))
    {
      if state.checkpoint.None? { return false; }
      var c := state.checkpoint.value;
      if stage < c.stage || stage > c.stage + 1 { return false; }
      if stage != c.stage {
        c := c.(stage := stage, history := c.history + [Item(stage, elapsed)]);
      }
      state := state.(checkpoint := Some(c));
      ok := true;
    }

    method Preflight(now: int, works: bool) returns (reply: Reply)
      modifies this
      ensures (state, reply) == Step(old(state), limit, Command.Preflight(now, works))
      ensures state.checkpoint.Some? && state.marker == old(state).marker
      ensures reply == Done <==> works && StageOf(old(state)) != ROLLED_BACK
      ensures reply == Done ==> StageOf(state) >= PREFLIGHT_COMPLETE
      ensures HistoryOf(state)
              == HistoryOf(old(state)) + if works && StageOf(old(state)) == DECLARED then [Item(PREFLIGHT_COMPLETE, None)] else []
      ensures old(state).checkpoint.Some? ==> state.checkpoint.value.declaredAt == old(state).checkpoint.value.declaredAt
    {
      Declare(now);
      if !works { return Refused; }
      var done := Completed(state, PREFLIGHT_COMPLETE);
      if done.None? { return Refused; }
      if !done.value {
        var ok := MoveTo(PREFLIGHT_COMPLETE, None);
        if !ok { return Refused; }
      }
      reply := Done;
    }

    /** The common pattern of the commands between preflight and readiness. */
    method CarryOut(stage: nat, repeats: bool, works: bool) returns (reply: Reply)
      requires stage > 0
      modifies this
      ensures (state, reply) == StageCommand(old(state), stage, repeats, works)
      ensures state != old(state) ==>
                && works && reply == Done && StageOf(old(state)) == stage - 1 && StageOf(state) == stage
                && GrowsBy(old(state), state, true, Item(stage, None))
      ensures reply == Done ==> StageOf(state) >= stage && StageOf(old(state)) != ROLLED_BACK && (works || !repeats)
      ensures reply == Refused ==>
                || StageOf(old(state)) == ROLLED_BACK || !works
                || (StageOf(old(state)) < stage && StageOf(old(state)) != stage - 1) || old(state).checkpoint.None?
      ensures works && old(state).checkpoint.Some? && StageOf(old(state)) == stage - 1 && stage < ROLLED_BACK ==>
                reply == Done && StageOf(state) == stage
    {
      var done := Completed(state, stage);
      if done.None? { return Refused; }
      if done.value && !repeats { return Done; }
      if !done.value && StageOf(state) != stage - 1 { return Refused; }
      if !works { return Refused; }
      if !done.value {
        var ok := MoveTo(stage, None);
        if !ok { return Refused; }
      }
      reply := Done;
    }

    /** Record readiness once, report the recorded time ever after, and publish the marker. */
    method ExternalReady(now: int, manifest: nat, works: bool) returns (reply: Reply)
      modifies this
      ensures (state, reply) == Step(old(state), limit, Command.ExternalReady(now, manifest, works))
      ensures reply.Ready? ==>
                && works && StageOf(state) >= EXTERNAL_READY && RecordedElapsed(HistoryOf(state)) == Some(reply.elapsed)
                && state.marker.Some? && state.marker.value.manifest == manifest
      ensures state.checkpoint != old(state).checkpoint ==>
                && StageOf(old(state)) == PROXY_AUTHORIZED && StageOf(state) == EXTERNAL_READY
                && 0 <= now - old(state).checkpoint.value.declaredAt <= limit
                && HistoryOf(state)
                   == HistoryOf(old(state)) + [Item(EXTERNAL_READY, Some(now - old(state).checkpoint.value.declaredAt))]
      ensures old(state).marker.Some? ==> state.marker == old(state).marker
      ensures old(state).marker.None? && state.marker.Some? ==>
                reply.Ready? && state.marker.value.history == HistoryOf(state)
      ensures reply == Refused ==>
                || StageOf(old(state)) == ROLLED_BACK || StageOf(old(state)) < PROXY_AUTHORIZED || !works
                || (state.marker.Some? && state.marker.value.manifest != manifest)
                || (StageOf(old(state)) == PROXY_AUTHORIZED
                    && !(0 <= now - old(state).checkpoint.value.declaredAt <= limit))
                || (StageOf(old(state)) >= EXTERNAL_READY && RecordedElapsed(HistoryOf(old(state))).None?)
      ensures reply != Done
    {
      var done := Completed(state, EXTERNAL_READY);
      if done.None? { return Refused; }
      if !done.value && StageOf(state) != PROXY_AUTHORIZED { return Refused; }
      var elapsed;
      if done.value {
        var recorded := LatestElapsed(HistoryOf(state));
        if recorded.None? { return Refused; }
        elapsed := recorded.value;
      } else {
        elapsed := now - state.checkpoint.value.declaredAt;
        if elapsed < 0 || elapsed > limit { return Refused; }
        var ok := MoveTo(EXTERNAL_READY, Some(elapsed));
        if !ok { return Refused; }
      }
      if !works { return Refused; }
      if state.marker.Some? {
        if state.marker.value.manifest != manifest { return Refused; }
      } else {
        state := state.(marker := Some(Marker(manifest, HistoryOf(state))));
      }
      reply := Ready(elapsed);
    }

    /** Walk the history backwards to the latest readiness entry. */
    static method LatestElapsed(history: seq<Item>) returns (elapsed: Option<int>)
      ensures elapsed == RecordedElapsed(history)
    {
      var i := |history|;
      assert history[..i] == history;
      while i > 0
        invariant 0 <= i <= |history| && RecordedElapsed(history) == RecordedElapsed(history[..i])
      {
        assert history[..i][..i - 1] == history[..i - 1];
        if history[i - 1].stage == EXTERNAL_READY {
          return history[i - 1].elapsed;
        }
        i := i - 1;
      }
      return None;
    }

    method RollbackSite(works: bool) returns (reply: Reply)
      modifies this
      ensures (state, reply) == Step(old(state), limit, Command.RollbackSite(works))
      ensures reply == Done <==> works && StageOf(old(state)) >= SITE_RETAINED
      ensures reply == Done ==> StageOf(state) == ROLLED_BACK && GrowsBy(old(state), state, true, Item(ROLLED_BACK, None))
      ensures reply != Done ==> state == old(state)
    {
      if StageOf(state) < SITE_RETAINED || !works { return Refused; }
      var c := state.checkpoint.value;
      state := state.(checkpoint := Some(c.(stage := ROLLED_BACK, history := c.history + [Item(ROLLED_BACK, None)])));
      reply := Done;
    }
  }
}
