/**
 The persistent clock of a rollback: one start that no retry can move, a lower bound on the elapsed time that never
 falls even when the wall clock does, and one verdict on the time limit. The record and its seal are two files that
 are written one after the other. Clock readings are in microseconds.
 */
module RollbackTimer {
  import opened Basics
  import opened Publication

  const LIMIT_SECONDS := 14_400
  const MICROSECONDS := 1_000_000

  datatype Record = Record(
    operation: nat, release: nat, startedAt: int, floor: int, completed: bool, passed: Option<bool>)

  /** The record, its seal, and the alert that a missed limit leaves, which names the elapsed time. */
  datatype Clock = Clock(record: Body<Record>, seal: Body<nat>, alert: Option<int>)

  /** Whose clock it is, and how its records are digested. */
  datatype Identity = Identity(operation: nat, release: nat, digest: Record -> nat)

  function Truncate(micro: int): int {
    if micro >= 0 then micro / MICROSECONDS else -(-micro / MICROSECONDS)
  }

  function Maximum(a: int, b: int): int {
    if a >= b then a else b
  }

  // ---------------------------------------------------------------------------
  // Reading and writing
  // ---------------------------------------------------------------------------

  function ReadClock(id: Identity, c: Clock): Option<Record> {
    if c.record.Whole? && c.seal.Whole? && id.digest(c.record.value) == c.seal.value
       && c.record.value.operation == id.operation && c.record.value.release == id.release && c.record.value.floor >= 0
    then Some(c.record.value)
    else None
  }

  datatype Put =
    | TearRecord | PutRecord(record: Record) | DropRecord
    | TearDigest | PutDigest(digest: nat) | DropDigest
    | PutAlert(elapsed: int)

  function Store(c: Clock, p: Put): Clock {
    match p
    case TearRecord => c.(record := Torn)
    case PutRecord(record) => c.(record := Whole(record))
    case DropRecord => c.(record := Absent)
    case TearDigest => c.(seal := Torn)
    case PutDigest(digest) => c.(seal := Whole(digest))
    case DropDigest => c.(seal := Absent)
    case PutAlert(elapsed) => c.(alert := Some(elapsed))
  }

  function StoreAll(c: Clock, ps: seq<Put>): Clock {
    if ps == [] then c else Store(StoreAll(c, ps[..|ps| - 1]), ps[|ps| - 1])
  }

  function Prefix(ps: seq<Put>, n: nat): seq<Put> {
    if n < |ps| then ps[..n] else ps
  }

  // ---------------------------------------------------------------------------
  // Commands
  // ---------------------------------------------------------------------------

  /** The wall clock, and the time since the process started by a clock that only goes forward. */
  datatype Reading = Reading(wall: int, process: nat)

  /** The wall clock is read once when a start is declared and again when the elapsed time is measured. */
  datatype Command = Declare(start: int) | Elapsed(start: int, now: Reading) | Complete(readyAt: Option<int>, now: Reading)

  function Started(id: Identity, at: int): Record {
    Record(id.operation, id.release, at, 0, false, None)
  }

  function DeclareScript(id: Identity, c: Clock, at: int, fault: Fault): seq<Put> {
    var record := Started(id, at);
    if !c.record.Absent? then []
    else if fault.FirstCreate? then [TearRecord, DropRecord]
    else if !c.seal.Absent? then [TearRecord, PutRecord(record), DropRecord]
    else if fault.SecondCreate? then [TearRecord, PutRecord(record), TearDigest, DropDigest, DropRecord]
    else [TearRecord, PutRecord(record), TearDigest, PutDigest(id.digest(record))]
  }

  function Rewrite(id: Identity, record: Record): seq<Put> {
    [PutRecord(record), PutDigest(id.digest(record))]
  }

  function ElapsedOf(record: Record, now: Reading): int {
    Maximum(Maximum(record.floor, Truncate(now.wall - record.startedAt)), Maximum(now.process / MICROSECONDS, 0))
  }

  function RaiseScript(id: Identity, record: Record, now: Reading): seq<Put> {
    var elapsed := ElapsedOf(record, now);
    if elapsed != record.floor then Rewrite(id, record.(floor := elapsed)) else []
  }

  function ElapsedScript(id: Identity, c: Clock, start: int, now: Reading, fault: Fault): seq<Put> {
    var declared := DeclareScript(id, c, start, fault);
    var record := ReadClock(id, StoreAll(c, declared));
    declared + if record.Some? then RaiseScript(id, record.value, now) else []
  }

  function Verdict(record: Record, elapsed: int): Record {
    record.(floor := elapsed, completed := true, passed := Some(elapsed <= LIMIT_SECONDS))
  }

  /** Store the verdict, and the alert after it if the limit was missed. */
  function JudgeScript(id: Identity, record: Record, elapsed: int): seq<Put> {
    Rewrite(id, Verdict(record, elapsed)) + if elapsed > LIMIT_SECONDS then [PutAlert(elapsed)] else []
  }

  function CompleteScript(id: Identity, c: Clock, readyAt: Option<int>, now: Reading): seq<Put> {
    var read := ReadClock(id, c);
    if read.None? || read.value.completed then []
    else
      var record := read.value;
      match readyAt
      case None => RaiseScript(id, record, now) + JudgeScript(id, record, ElapsedOf(record, now))
      case Some(at) =>
        var waited := Truncate(at - record.startedAt);
        if waited < 0 then [] else JudgeScript(id, record, Maximum(record.floor, waited))
  }

  function CommandScript(id: Identity, c: Clock, command: Command, fault: Fault): seq<Put> {
    match command
    case Declare(start) => DeclareScript(id, c, start, fault)
    case Elapsed(start, now) => ElapsedScript(id, c, start, now, fault)
    case Complete(readyAt, now) => CompleteScript(id, c, readyAt, now)
  }

  /** A command that died after `cut` writes, unless it had fewer. */
  datatype Try = Try(command: Command, fault: Fault, cut: nat)

  function AfterTry(id: Identity, c: Clock, t: Try): Clock {
    StoreAll(c, Prefix(CommandScript(id, c, t.command, t.fault), t.cut))
  }

  function AfterTries(id: Identity, c: Clock, tries: seq<Try>): Clock {
    if tries == [] then c
    else AfterTry(id, AfterTries(id, c, tries[..|tries| - 1]), tries[|tries| - 1])
  }

  // ---------------------------------------------------------------------------
  // What never changes
  // ---------------------------------------------------------------------------

  /** The later record has the same start, has not lost time, and keeps a verdict once given. */
  predicate Continues(earlier: Record, current: Record) {
    && current.operation == earlier.operation && current.release == earlier.release && current.startedAt == earlier.startedAt
    && current.floor >= earlier.floor
    && (earlier.completed ==> current.completed && current.passed == earlier.passed)
  }

  /** The file still holds a whole record that continues the given one. */
  predicate Holds(c: Clock, record: Record) {
    c.record.Whole? && Continues(record, c.record.value)
  }

  predicate OnlyContinues(ps: seq<Put>, record: Record) {
    forall p | p in ps :: p.PutDigest? || p.PutAlert? || (p.PutRecord? && Continues(record, p.record))
  }

  lemma {:induction false} StoringKeeps(c: Clock, ps: seq<Put>, record: Record)
    requires Holds(c, record) && OnlyContinues(ps, record)
    ensures Holds(StoreAll(c, ps), record)
  {
    if ps != [] {
      assert ps[|ps| - 1] in ps && forall p | p in ps[..|ps| - 1] :: p in ps;
      StoringKeeps(c, ps[..|ps| - 1], record);
    }
  }

  lemma ScriptsContinue(id: Identity, c: Clock, command: Command, fault: Fault, record: Record)
    requires Holds(c, record)
    ensures OnlyContinues(CommandScript(id, c, command, fault), record)
  {
    if !command.Complete? {
      assert DeclareScript(id, c, command.start, fault) == [];
      assert StoreAll(c, []) == c;
    }
  }

  /**
   Whatever commands follow, however the clocks jump, wherever the process dies and whatever creates fail: the record
   that was once read is never replaced by one with another start, less elapsed time or another verdict.
   */
  lemma {:induction false} ClockIsMonotone(id: Identity, c: Clock, tries: seq<Try>)
    requires ReadClock(id, c).Some?
    ensures var later := ReadClock(id, AfterTries(id, c, tries));
            later.Some? ==> Continues(ReadClock(id, c).value, later.value)
    ensures Holds(AfterTries(id, c, tries), c.record.value)
  {
    var record := c.record.value;
    if tries != [] {
      var before, t := AfterTries(id, c, tries[..|tries| - 1]), tries[|tries| - 1];
      ClockIsMonotone(id, c, tries[..|tries| - 1]);
      ScriptsContinue(id, before, t.command, t.fault, record);
      var ps := CommandScript(id, before, t.command, t.fault);
      assert forall p | p in Prefix(ps, t.cut) :: p in ps;
      StoringKeeps(before, Prefix(ps, t.cut), record);
    }
  }

  /** A record that no longer reads back is final: every later command refuses and writes nothing. */
  lemma {:induction false} RefusedClockIsFrozen(id: Identity, c: Clock, tries: seq<Try>)
    requires !c.record.Absent? && ReadClock(id, c).None?
    ensures AfterTries(id, c, tries) == c
  {
    if tries != [] {
      RefusedClockIsFrozen(id, c, tries[..|tries| - 1]);
      var t := tries[|tries| - 1];
      assert StoreAll(c, []) == c;
      assert CommandScript(id, c, t.command, t.fault) == [];
    }
  }

  // ---------------------------------------------------------------------------
  // The verdict
  // ---------------------------------------------------------------------------

  /** A command that dies between its two writes leaves a clock that refuses, or two records with one digest. */
  lemma DyingBetweenWritesRefuses(id: Identity, c: Clock, record: Record)
    requires ReadClock(id, c).Some? && record != c.record.value && id.digest(record) != id.digest(c.record.value)
    ensures ReadClock(id, StoreAll(c, Prefix(Rewrite(id, record), 1))).None?
  {
    var put := PutRecord(record);
    assert Prefix(Rewrite(id, record), 1) == [put];
    assert [put][..0] == [] && StoreAll(c, []) == c && StoreAll(c, [put]) == Store(c, put);
  }

  lemma StoreTwo(c: Clock, first: Put, second: Put)
    ensures StoreAll(c, [first, second]) == Store(Store(c, first), second)
  {
    var both := [first, second];
    assert both[..1] == [first] && [first][..0] == [];
    assert StoreAll(c, [first]) == Store(StoreAll(c, []), first) && StoreAll(c, both) == Store(StoreAll(c, [first]), second);
  }

  /** A declaration that is carried out stores its own start or nothing. */
  lemma DeclaredRecord(id: Identity, c: Clock, start: int, fault: Fault)
    requires c.record.Absent?
    ensures var read := ReadClock(id, StoreAll(c, DeclareScript(id, c, start, fault)));
            && (read.Some? ==> read.value == Started(id, start))
            && (read.Some? <==> fault.NoFault? && c.seal.Absent?)
  {
    var ps := DeclareScript(id, c, start, fault);
    var record := Started(id, start);
    StoreTwo(c, ps[0], ps[1]);
    if |ps| == 3 {
      assert ps[..2] == [ps[0], ps[1]];
    } else if |ps| == 4 {
      assert ps[..3][..2] == [ps[0], ps[1]] && ps[..2] == [ps[0], ps[1]];
    } else if |ps| == 5 {
      assert ps[..4][..3] == ps[..3] && ps[..3][..2] == [ps[0], ps[1]];
    }
  }

  lemma StoreConcat(c: Clock, a: seq<Put>, first: Put, second: Put)
    ensures StoreAll(c, a + [first, second]) == Store(Store(StoreAll(c, a), first), second)
  {
    StoreAppended(c, a, [first, second]);
    StoreTwo(StoreAll(c, a), first, second);
  }

  function Finished(id: Identity, c: Clock, command: Command): Clock {
    StoreAll(c, CommandScript(id, c, command, NoFault))
  }

  predicate IsGreatest(m: int, among: set<int>) {
    m in among && forall x | x in among :: x <= m
  }

  /** Whole seconds, towards zero, as the source's conversion of a difference of times. */
  lemma TruncateIsWholeSeconds(micro: int)
    ensures micro >= 0 ==> 0 <= micro - Truncate(micro) * MICROSECONDS < MICROSECONDS
    ensures Truncate(-micro) == -Truncate(micro)
  {
  }

  /** A measurement takes the greatest of what was stored, what the wall clock says, and how long the process has run. */
  lemma ElapsedIsTheGreatest(record: Record, now: Reading)
    requires record.floor >= 0
    ensures IsGreatest(ElapsedOf(record, now),
              {record.floor, Truncate(now.wall - record.startedAt), Truncate(now.process)})
  {
  }

  /** A completion that runs to its end stores a verdict that matches the elapsed time it stores. */
  lemma CompletionJudgesTheElapsedTime(id: Identity, c: Clock, readyAt: Option<int>, now: Reading)
    requires ReadClock(id, c).Some? && !ReadClock(id, c).value.completed
    requires readyAt.Some? ==> Truncate(readyAt.value - ReadClock(id, c).value.startedAt) >= 0
    ensures var after := ReadClock(id, Finished(id, c, Complete(readyAt, now)));
            && after.Some? && after.value.completed && Continues(ReadClock(id, c).value, after.value)
            && after.value.passed == Some(after.value.floor <= LIMIT_SECONDS) && Consistent(after.value)
            && (readyAt.None? ==> after.value.floor == ElapsedOf(ReadClock(id, c).value, now))
            && (readyAt.Some? ==>
                  IsGreatest(after.value.floor,
                             {ReadClock(id, c).value.floor, Truncate(readyAt.value - ReadClock(id, c).value.startedAt)}))
            && Finished(id, c, Complete(readyAt, now)).alert
               == if after.value.floor > LIMIT_SECONDS then Some(after.value.floor) else c.alert
  {
    var record := ReadClock(id, c).value;
    var elapsed :=
      if readyAt.None? then ElapsedOf(record, now) else Maximum(record.floor, Truncate(readyAt.value - record.startedAt));
    var put := Verdict(record, elapsed);
    var raised := if readyAt.None? then RaiseScript(id, record, now) else [];
    assert CommandScript(id, c, Complete(readyAt, now), NoFault) == raised + JudgeScript(id, record, elapsed);
    StoreConcat(c, raised, PutRecord(put), PutDigest(id.digest(put)));
    var stored := raised + Rewrite(id, put);
    NothingAlerts(c, raised);
    if elapsed > LIMIT_SECONDS {
      assert raised + JudgeScript(id, record, elapsed) == stored + [PutAlert(elapsed)];
      assert (stored + [PutAlert(elapsed)])[..|stored|] == stored;
    } else {
      assert raised + JudgeScript(id, record, elapsed) == stored;
    }
  }

  /** The alert is the last write: a completion that dies just before it has judged the time, and no retry alerts. */
  lemma AlertIsLost(id: Identity, c: Clock, now: Reading, tries: seq<Try>)
    requires ReadClock(id, c).Some? && !ReadClock(id, c).value.completed && c.alert.None?
    requires ElapsedOf(ReadClock(id, c).value, now) > LIMIT_SECONDS
    ensures var ps := CommandScript(id, c, Complete(None, now), NoFault);
            var died := StoreAll(c, Prefix(ps, |ps| - 1));
            && ps != [] && ps[|ps| - 1].PutAlert?
            && ReadClock(id, died).Some? && ReadClock(id, died).value.passed == Some(false)
            && AfterTries(id, died, tries).alert.None?
  {
    var record := ReadClock(id, c).value;
    var elapsed := ElapsedOf(record, now);
    var put, raised := Verdict(record, elapsed), RaiseScript(id, record, now);
    var ps := CommandScript(id, c, Complete(None, now), NoFault);
    assert ps == (raised + Rewrite(id, put)) + [PutAlert(elapsed)];
    assert Prefix(ps, |ps| - 1) == raised + Rewrite(id, put);
    StoreConcat(c, raised, PutRecord(put), PutDigest(id.digest(put)));
    var died := StoreAll(c, Prefix(ps, |ps| - 1));
    NothingAlerts(c, raised);
    CompletedClocksDoNotAlert(id, died, tries);
  }

  predicate IsSilent(ps: seq<Put>) {
    forall p | p in ps :: !p.PutAlert?
  }

  lemma {:induction false} NothingAlerts(c: Clock, ps: seq<Put>)
    requires IsSilent(ps)
    ensures StoreAll(c, ps).alert == c.alert
  {
    if ps != [] {
      assert ps[|ps| - 1] in ps && forall p | p in ps[..|ps| - 1] :: p in ps;
      NothingAlerts(c, ps[..|ps| - 1]);
    }
  }

  lemma {:induction false} CompletedClocksDoNotAlert(id: Identity, c: Clock, tries: seq<Try>)
    requires c.record.Whole? && c.record.value.completed
    ensures var after := AfterTries(id, c, tries);
            after.alert == c.alert && after.record.Whole? && after.record.value.completed
  {
    if tries != [] {
      var before, t := AfterTries(id, c, tries[..|tries| - 1]), tries[|tries| - 1];
      CompletedClocksDoNotAlert(id, c, tries[..|tries| - 1]);
      var ps := CommandScript(id, before, t.command, t.fault);
      ScriptsContinue(id, before, t.command, t.fault, before.record.value);
      assert forall p | p in Prefix(ps, t.cut) :: p in ps;
      StoringKeeps(before, Prefix(ps, t.cut), before.record.value);
      assert StoreAll(before, []) == before;
      assert IsSilent(ps);
      NothingAlerts(before, Prefix(ps, t.cut));
    }
  }

  /** Asking again for the verdict changes nothing, and a later reading keeps it but may raise the elapsed time. */
  lemma ReadingAfterCompletion(id: Identity, c: Clock, start: int, now: Reading, readyAt: Option<int>)
    requires ReadClock(id, c).Some? && ReadClock(id, c).value.completed
    ensures Finished(id, c, Complete(readyAt, now)) == c
    ensures var record := ReadClock(id, c).value;
            ReadClock(id, Finished(id, c, Elapsed(start, now))) == Some(record.(floor := ElapsedOf(record, now)))
  {
    assert StoreAll(c, []) == c;
    assert DeclareScript(id, c, start, NoFault) == [];
    var record := ReadClock(id, c).value;
    var raised := record.(floor := ElapsedOf(record, now));
    StoreTwo(c, PutRecord(raised), PutDigest(id.digest(raised)));
    assert CommandScript(id, c, Elapsed(start, now), NoFault) == RaiseScript(id, record, now);
  }

  /** What a completed clock reports is consistent: it says passed exactly when the time it names is within the limit. */
  predicate Consistent(record: Record) {
    record.completed && record.passed == Some(record.floor <= LIMIT_SECONDS)
  }

  /**
   A reading of the elapsed time after the completion spoils a passing report exactly when it comes after the limit:
   the clock then goes on to report a time above the limit together with the old verdict that it passed.
   */
  lemma LateReadingSpoilsTheReportIff(id: Identity, c: Clock, start: int, now: Reading)
    requires ReadClock(id, c).Some? && Consistent(ReadClock(id, c).value)
    ensures var record := ReadClock(id, c).value;
            var after := ReadClock(id, Finished(id, c, Elapsed(start, now)));
            && after.Some?
            && (Consistent(after.value) <==>
                record.passed == Some(false)
                || (Truncate(now.wall - record.startedAt) <= LIMIT_SECONDS && now.process / MICROSECONDS <= LIMIT_SECONDS))
  {
    ReadingAfterCompletion(id, c, start, now, None);
  }

  // ---------------------------------------------------------------------------
  // The clock object
  // ---------------------------------------------------------------------------

  datatype Answer = Time(elapsed: int) | Judged(elapsed: int, passed: bool) | Raised | Died

  /** The two files, and the number of writes left before the process dies. */
  class RollbackClock {
    const id: Identity
    var files: Clock
    var budget: nat

    constructor (id: Identity, files: Clock, budget: nat)
      ensures this.id == id && this.files == files && this.budget == budget
    {
      this.id, this.files, this.budget := id, files, budget;
    }

    /** Make the writes one by one, until they are done or the process dies. */
    method StoreEach(ps: seq<Put>) returns (alive: bool)
      modifies this
      ensures files == StoreAll(old(files), Prefix(ps, old(budget)))
      ensures alive <==> |ps| <= old(budget)
      ensures budget == if alive then old(budget) - |ps| else 0
    {
      alive := true;
      for i := 0 to |ps|
        invariant i <= old(budget) && budget == old(budget) - i
        invariant files == StoreAll(old(files), ps[..i])
      {
        if budget == 0 {
          return false;
        }
        assert ps[..i + 1][..i] == ps[..i];
        files, budget := Store(files, ps[i]), budget - 1;
      }
      assert ps[..|ps|] == ps;
    }

    /** Declare the start once; the record of an earlier declaration is read instead. */
    method Declare(start: int, fault: Fault) returns (answer: Answer)
      modifies this
      ensures var ps := CommandScript(id, old(files), Command.Declare(start), fault);
              && files == StoreAll(old(files), Prefix(ps, old(budget)))
              && (answer.Died? <==> old(budget) < |ps|)
              && (answer.Time? <==> !answer.Died? && ReadClock(id, files).Some?)
      ensures answer.Time? ==>
                ReadClock(id, files).value.startedAt
                == if old(files).record.Absent? then start else ReadClock(id, old(files)).value.startedAt
    {
      var ps := DeclareScript(id, files, start, fault);
      if files.record.Absent? {
        DeclaredRecord(id, files, start, fault);
      }
      var alive := StoreEach(ps);
      assert alive ==> Prefix(ps, old(budget)) == ps;
      assert StoreAll(old(files), []) == old(files);
      if !alive {
        return Answer.Died;
      }
      var read := ReadClock(id, files);
      return if read.Some? then Time(read.value.floor) else Answer.Raised;
    }

    /** Declare the start if there is none, then raise the lower bound to the time elapsed by either clock. */
    method Elapsed(start: int, now: Reading, fault: Fault) returns (answer: Answer)
      modifies this
      ensures var ps := CommandScript(id, old(files), Command.Elapsed(start, now), fault);
              && files == StoreAll(old(files), Prefix(ps, old(budget)))
              && (answer.Died? <==> old(budget) < |ps|)
              && (answer.Time? ==> ReadClock(id, files).Some? && ReadClock(id, files).value.floor == answer.elapsed)
      ensures !answer.Judged?
      ensures var declared := ReadClock(id, StoreAll(old(files), DeclareScript(id, old(files), start, fault)));
              && (answer.Raised? ==> declared.None?)
              && (answer.Time? ==> declared.Some? && answer.elapsed == ElapsedOf(declared.value, now))
    {
      ghost var before, whole := budget, ElapsedScript(id, files, start, now, fault);
      var declare := DeclareScript(id, files, start, fault);
      var alive := StoreEach(declare);
      assert !alive ==> Prefix(whole, before) == Prefix(declare, before);
      if !alive {
        return Answer.Died;
      }
      var read := ReadClock(id, files);
      if read.None? {
        assert Prefix(whole, before) == declare == whole;
        return Answer.Raised;
      }
      var elapsed := ElapsedOf(read.value, now);
      ghost var middle := files;
      ghost var raise := RaiseScript(id, read.value, now);
      assert whole == declare + raise;
      if elapsed != read.value.floor {
        var raised := read.value.(floor := elapsed);
        alive := StoreEach(Rewrite(id, raised));
        StoreRest(old(files), declare, raise, before - |declare|);
        if !alive {
          return Answer.Died;
        }
        StoreTwo(middle, PutRecord(raised), PutDigest(id.digest(raised)));
        assert files == StoreAll(middle, raise);
      } else {
        assert Prefix(whole, before) == declare;
      }
      return Time(elapsed);
    }

    /** Give the verdict once, and the alert with it; a repeated call repeats the verdict. */
    method CompleteAfterExternalReadiness(readyAt: Option<int>, now: Reading) returns (answer: Answer)
      modifies this
      ensures var ps := CommandScript(id, old(files), Complete(readyAt, now), NoFault);
              && files == StoreAll(old(files), Prefix(ps, old(budget)))
              && (answer.Died? <==> old(budget) < |ps|)
      ensures answer.Judged? ==>
                var after := ReadClock(id, files);
                && after.Some? && after.value.completed && after.value.floor == answer.elapsed
                && (after.value.passed == Some(true) <==> answer.passed)
      ensures !answer.Died? ==>
                var read := ReadClock(id, old(files));
                (answer.Judged? <==>
                   && read.Some?
                   && (read.value.completed || readyAt.None?
                       || Truncate(readyAt.value - read.value.startedAt) >= 0))
    {
      var read := ReadClock(id, files);
      if read.None? {
        return Answer.Raised;
      }
      var record := read.value;
      if record.completed {
        return Judged(record.floor, record.passed == Some(true));
      }
      ghost var before, start, raise := budget, files, [];
      var elapsed;
      if readyAt.None? {
        raise := RaiseScript(id, record, now);
        elapsed := ElapsedOf(record, now);
        var alive := StoreEach(RaiseScript(id, record, now));
        if !alive {
          assert Prefix(raise + JudgeScript(id, record, elapsed), before) == Prefix(raise, before);
          return Answer.Died;
        }
      } else {
        var waited := Truncate(readyAt.value - record.startedAt);
        if waited < 0 {
          return Answer.Raised;
        }
        elapsed := Maximum(record.floor, waited);
        assert StoreAll(files, []) == files;
      }
      var alive := Judge(record, elapsed);
      StoreRest(start, raise, JudgeScript(id, record, elapsed), before - |raise|);
      assert CompleteScript(id, start, readyAt, now) == raise + JudgeScript(id, record, elapsed);
      if !alive {
        return Answer.Died;
      }
      return Judged(elapsed, elapsed <= LIMIT_SECONDS);
    }

    /** Write the verdict and its seal, and then the alert if there has to be one. */
    method Judge(record: Record, elapsed: int) returns (alive: bool)
      requires record.operation == id.operation && record.release == id.release && elapsed >= 0
      modifies this
      ensures var ps := JudgeScript(id, record, elapsed);
              files == StoreAll(old(files), Prefix(ps, old(budget))) && (alive <==> |ps| <= old(budget))
      ensures alive ==> ReadClock(id, files) == Some(Verdict(record, elapsed))
      ensures alive && elapsed > LIMIT_SECONDS ==> files.alert == Some(elapsed)
    {
      ghost var before, n := files, budget;
      var verdict := Verdict(record, elapsed);
      var two := Rewrite(id, verdict);
      alive := StoreEach(two);
      StoreTwo(before, PutRecord(verdict), PutDigest(id.digest(verdict)));
      if elapsed > LIMIT_SECONDS {
        if !alive {
          assert Prefix(two + [PutAlert(elapsed)], n) == Prefix(two, n);
          return;
        }
        StoreRest(before, two, [PutAlert(elapsed)], n - 2);
        AlertOnly(files, elapsed);
        alive := StoreEach([PutAlert(elapsed)]);
      } else {
        assert two + [] == two;
      }
    }
  }

  lemma AlertOnly(c: Clock, elapsed: int)
    ensures StoreAll(c, [PutAlert(elapsed)]) == c.(alert := Some(elapsed))
  {
    assert [PutAlert(elapsed)][..0] == [];
  }

  lemma {:induction false} StoreAppended(c: Clock, a: seq<Put>, b: seq<Put>)
    ensures StoreAll(StoreAll(c, a), b) == StoreAll(c, a + b)
  {
    if b == [] {
      assert a + b == a;
    } else {
      assert (a + b)[..|a + b| - 1] == a + b[..|b| - 1];
      StoreAppended(c, a, b[..|b| - 1]);
    }
  }

  lemma StoreRest(c: Clock, a: seq<Put>, b: seq<Put>, n: nat)
    ensures StoreAll(StoreAll(c, a), Prefix(b, n)) == StoreAll(c, Prefix(a + b, |a| + n))
  {
    StoreAppended(c, a, Prefix(b, n));
    assert Prefix(a + b, |a| + n) == a + Prefix(b, n);
  }
}
