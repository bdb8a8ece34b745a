/**
 Login backoff: failed and running attempts are counted for the source address and for the account, and from a limit
 on every further attempt must wait twice as long as the one before it, up to a maximum. Times are real numbers.
 */
module LoginBackoff {
  import opened Basics

  datatype Config = Config(limit: nat, window: real, base: real, max: real)

  datatype Key = Ip(address: string) | Account(name: string)

  datatype State = State(count: nat, blockedUntil: real, lastFailure: real)

  type Failures = map<Key, State>

  /** From this power of two on, the factor no longer converts to a floating-point number. */
  const MAX_EXPONENT := 1024

  function Pow2(n: nat): nat {
    if n == 0 then 1 else 2 * Pow2(n - 1)
  }

  function Min(a: real, b: real): real {
    if a <= b then a else b
  }

  function Max(a: real, b: real): real {
    if a >= b then a else b
  }

  function Backoff(c: Config, exponent: nat): real {
    Min(c.base * Pow2(exponent) as real, c.max)
  }

  /** How long a key is blocked once this many attempts have been counted. */
  function Delay(c: Config, count: nat): real {
    if count >= c.limit then Backoff(c, count - c.limit) else 0.0
  }

  /** From the limit on, each further count doubles the block, from the base up to the maximum; before it there is none. */
  lemma BackoffDoubles(c: Config, count: nat)
    requires 0.0 <= c.base && 0.0 <= c.max
    ensures count < c.limit ==> Delay(c, count) == 0.0
    ensures Delay(c, c.limit) == if c.base <= c.max then c.base else c.max
    ensures count >= c.limit ==>
              Delay(c, count + 1) == if 2.0 * Delay(c, count) <= c.max then 2.0 * Delay(c, count) else c.max
  {
    if count >= c.limit {
      var n := count - c.limit;
      assert Pow2(n + 1) == 2 * Pow2(n);
      assert c.base * (2 * Pow2(n)) as real == 2.0 * (c.base * Pow2(n) as real);
    }
  }

  function Active(c: Config, f: Failures, key: Key, now: real): Option<State> {
    if key in f && now - f[key].lastFailure <= c.window then Some(f[key]) else None
  }

  /** Forget the key if it has expired. */
  function Prune(c: Config, f: Failures, key: Key, now: real): Failures {
    if key in f && now - f[key].lastFailure > c.window then f - {key} else f
  }

  function PruneBoth(c: Config, f: Failures, ip: Key, account: Key, now: real): Failures {
    Prune(c, Prune(c, f, ip, now), account, now)
  }

  /** The longer of the two remaining blocks; it may be negative. */
  function Remaining(c: Config, f: Failures, ip: Key, account: Key, now: real): real {
    match (Active(c, f, ip, now), Active(c, f, account, now))
    case (None, None) => 0.0
    case (Some(s), None) => s.blockedUntil - now
    case (None, Some(s)) => s.blockedUntil - now
    case (Some(s), Some(t)) => Max(s.blockedUntil - now, t.blockedUntil - now)
  }

  function NextCount(c: Config, f: Failures, key: Key, now: real): nat {
    match Active(c, f, key, now)
    case None => 1
    case Some(s) => s.count + 1
  }

  predicate Overflows(c: Config, count: nat) {
    count >= c.limit && count - c.limit >= MAX_EXPONENT
  }

  function Counted(c: Config, f: Failures, key: Key, now: real): Failures {
    var count := NextCount(c, f, key, now);
    f[key := State(count, now + Delay(c, count), now)]
  }

  datatype Outcome = Refused(retryAfter: real) | Admitted(retryAfter: real) | Overflow

  datatype Step = Step(failures: Failures, outcome: Outcome, counted: set<Key>)

  /** One attempt; the clock is read before the check, before counting and after counting. */
  function Attempted(c: Config, f: Failures, ip: Key, account: Key, t1: real, t2: real, t3: real): Step {
    var f1 := PruneBoth(c, f, ip, account, t1);
    var wait := Remaining(c, f, ip, account, t1);
    if wait > 0.0 then Step(f1, Refused(wait), {})
    else if Overflows(c, NextCount(c, f1, ip, t2)) then Step(Prune(c, f1, ip, t2), Overflow, {})
    else
      var f2 := Counted(c, f1, ip, t2);
      if Overflows(c, NextCount(c, f2, account, t2)) then Step(Prune(c, f2, account, t2), Overflow, {ip})
      else
        var f3 := Counted(c, f2, account, t2);
        Step(PruneBoth(c, f3, ip, account, t3), Admitted(Remaining(c, f3, ip, account, t3)), {ip, account})
  }

  // ---------------------------------------------------------------------------
  // The limiter
  // ---------------------------------------------------------------------------

  class LoginRateLimiter {
    const config: Config
    const casefold: string -> string
    var failures: Failures

    constructor (config: Config, casefold: string -> string)
      ensures this.config == config && this.casefold == casefold && failures == map[]
    {
      this.config := config;
      this.casefold := casefold;
      failures := map[];
    }

    method ActiveState(key: Key, now: real) returns (state: Option<State>)
      modifies this
      ensures state == Active(config, old(failures), key, now)
      ensures failures == Prune(config, old(failures), key, now)
    {
      if key !in failures {
        return None;
      }
      var found := failures[key];
      if now - found.lastFailure > config.window {
        failures := failures - {key};
        return None;
      }
      return Some(found);
    }

    method RetryAfter(address: string, username: string, now: real) returns (seconds: real)
      modifies this
      ensures seconds == Remaining(config, old(failures), Ip(address), Account(casefold(username)), now)
      ensures failures == PruneBoth(config, old(failures), Ip(address), Account(casefold(username)), now)
    {
      var first := ActiveState(Ip(address), now);
      var second := ActiveState(Account(casefold(username)), now);
      var states := (if first.Some? then [first.value] else []) + if second.Some? then [second.value] else [];
      seconds := 0.0;
      for i := 0 to |states|
        invariant i == 0 ==> seconds == 0.0
        invariant i == 1 ==> seconds == states[0].blockedUntil - now
        invariant i == 2 ==> seconds == Max(states[0].blockedUntil - now, states[1].blockedUntil - now)
      {
        var left := states[i].blockedUntil - now;
        seconds := if i == 0 then left else Max(seconds, left);
      }
    }

    /** Count the attempt for one key; nothing is stored when the backoff cannot be computed. */
    method Count(key: Key, now: real) returns (ok: bool)
      modifies this
      ensures ok <==> !Overflows(config, NextCount(config, old(failures), key, now))
      ensures failures == if ok then Counted(config, old(failures), key, now) else Prune(config, old(failures), key, now)
    {
      hide Backoff;
      var state := ActiveState(key, now);
      var count := if state.None? then 1 else state.value.count + 1;
      var delay := 0.0;
      if count >= config.limit {
        var exponent := count - config.limit;
        if exponent >= MAX_EXPONENT {
          return false;
        }
        delay := Backoff(config, exponent);
      }
      failures := failures[key := State(count, now + delay, now)];
      assert failures == old(failures)[key := State(count, now + delay, now)];
      return true;
    }

    method ReserveAttempt(address: string, username: string, t1: real, t2: real, t3: real) returns (outcome: Outcome)
      modifies this
      ensures var step := Attempted(config, old(failures), Ip(address), Account(casefold(username)), t1, t2, t3);
              outcome == step.outcome && failures == step.failures
    {
      hide Remaining, Prune, NextCount, Overflows, Delay;
      var wait := RetryAfter(address, username, t1);
      if wait > 0.0 {
        return Refused(wait);
      }
      var ok := Count(Ip(address), t2);
      if !ok {
        return Overflow;
      }
      ok := Count(Account(casefold(username)), t2);
      if !ok {
        return Overflow;
      }
      wait := RetryAfter(address, username, t3);
      return Admitted(wait);
    }

    method RegisterSuccess(address: string, username: string)
      modifies this
      ensures failures == old(failures) - {Ip(address), Account(casefold(username))}
    {
      failures := failures - {Ip(address)};
      failures := failures - {Account(casefold(username))};
    }
  }

  // ---------------------------------------------------------------------------
  // Runs and their history
  // ---------------------------------------------------------------------------

  datatype Event = Attempt(ip: string, account: string, t1: real, t2: real, t3: real)
                 | Success(ip: string, account: string)
  {
    function Keys(): set<Key> {
      {Ip(ip), Account(account)}
    }
  }

  function StepOf(c: Config, f: Failures, e: Event): Step {
    match e
    case Attempt(ip, account, t1, t2, t3) => Attempted(c, f, Ip(ip), Account(account), t1, t2, t3)
    case Success(_, _) => Step(f - e.Keys(), Admitted(0.0), {})
  }

  function Exec(c: Config, events: seq<Event>): Failures {
    if events == [] then map[] else StepOf(c, Exec(c, events[..|events| - 1]), events[|events| - 1]).failures
  }

  /** The clock never goes back, and stands at `now` at most. */
  predicate OnTime(events: seq<Event>, now: real) {
    if events == [] then true
    else
      var before, e := events[..|events| - 1], events[|events| - 1];
      match e
      case Attempt(_, _, t1, t2, t3) => OnTime(before, t1) && t1 <= t2 <= t3 <= now
      case Success(_, _) => OnTime(before, now)
  }

  /** Attempts follow each other within the window, or a new streak begins. */
  function Extend(c: Config, streak: seq<real>, t: real): seq<real> {
    if streak != [] && t - streak[|streak| - 1] <= c.window then streak + [t] else [t]
  }

  /** When the attempts on a key were counted, since its last success and without a gap longer than the window. */
  function Streak(c: Config, events: seq<Event>, key: Key): seq<real> {
    if events == [] then []
    else
      var before, e := events[..|events| - 1], events[|events| - 1];
      var streak := Streak(c, before, key);
      if e.Success? then (if key in e.Keys() then [] else streak)
      else if key in StepOf(c, Exec(c, before), e).counted then Extend(c, streak, e.t2)
      else streak
  }

  /** The stored state of a key tells its streak, unless the streak is over. */
  predicate Agrees(c: Config, f: Failures, streak: seq<real>, key: Key, now: real) {
    && (streak != [] ==> streak[|streak| - 1] <= now)
    && (if key in f then
          var last := if streak != [] then streak[|streak| - 1] else now;
          streak != [] && f[key] == State(|streak|, last + Delay(c, |streak|), last)
        else streak == [] || now - streak[|streak| - 1] > c.window)
  }

  lemma AgreesLater(c: Config, f: Failures, streak: seq<real>, key: Key, now: real, later: real)
    requires Agrees(c, f, streak, key, now) && now <= later
    ensures Agrees(c, f, streak, key, later)
  {}

  lemma AgreesPruned(c: Config, f: Failures, streak: seq<real>, key: Key, other: Key, now: real)
    requires Agrees(c, f, streak, key, now)
    ensures Agrees(c, Prune(c, f, other, now), streak, key, now)
  {}

  lemma AgreesCounted(c: Config, f: Failures, streak: seq<real>, key: Key, other: Key, now: real)
    requires Agrees(c, f, streak, key, now)
    ensures Agrees(c, Counted(c, f, other, now), if other == key then Extend(c, streak, now) else streak, key, now)
  {}

  lemma AgreesAttempted(c: Config, f: Failures, streak: seq<real>, key: Key, e: Event, now: real)
    requires e.Attempt? && Agrees(c, f, streak, key, e.t1) && e.t1 <= e.t2 <= e.t3 <= now
    ensures var step := StepOf(c, f, e);
            Agrees(c, step.failures, if key in step.counted then Extend(c, streak, e.t2) else streak, key, now)
  {
    hide Agrees, Prune, Counted, Remaining, NextCount, Overflows, Extend;
    var ip, account := Ip(e.ip), Account(e.account);
    AgreesPruned(c, f, streak, key, ip, e.t1);
    AgreesPruned(c, Prune(c, f, ip, e.t1), streak, key, account, e.t1);
    var f1 := PruneBoth(c, f, ip, account, e.t1);
    AgreesLater(c, f1, streak, key, e.t1, now);
    AgreesLater(c, f1, streak, key, e.t1, e.t2);
    AgreesPruned(c, f1, streak, key, ip, e.t2);
    AgreesLater(c, Prune(c, f1, ip, e.t2), streak, key, e.t2, now);
    AgreesCounted(c, f1, streak, key, ip, e.t2);
    var f2, streak2 := Counted(c, f1, ip, e.t2), if ip == key then Extend(c, streak, e.t2) else streak;
    AgreesPruned(c, f2, streak2, key, account, e.t2);
    AgreesLater(c, Prune(c, f2, account, e.t2), streak2, key, e.t2, now);
    AgreesCounted(c, f2, streak2, key, account, e.t2);
    var f3, streak3 := Counted(c, f2, account, e.t2), if account == key then Extend(c, streak2, e.t2) else streak2;
    AgreesLater(c, f3, streak3, key, e.t2, e.t3);
    AgreesPruned(c, f3, streak3, key, ip, e.t3);
    AgreesPruned(c, Prune(c, f3, ip, e.t3), streak3, key, account, e.t3);
    AgreesLater(c, PruneBoth(c, f3, ip, account, e.t3), streak3, key, e.t3, now);
  }

  /** After every run the counters say exactly what the history says, for every address and every account. */
  lemma {:induction false} CountersTellTheStreak(c: Config, events: seq<Event>, key: Key, now: real)
    requires OnTime(events, now)
    ensures Agrees(c, Exec(c, events), Streak(c, events, key), key, now)
  {
    if events != [] {
      hide Attempted, Extend;
      var before, e := events[..|events| - 1], events[|events| - 1];
      match e {
        case Attempt(_, _, t1, _, _) =>
          CountersTellTheStreak(c, before, key, t1);
          AgreesAttempted(c, Exec(c, before), Streak(c, before, key), key, e, now);
        case Success(_, _) =>
          CountersTellTheStreak(c, before, key, now);
      }
    }
  }

  // ---------------------------------------------------------------------------
  // Backoff
  // ---------------------------------------------------------------------------

  /** Each counted attempt waited out the delay of the ones before it. */
  predicate Spaced(c: Config, streak: seq<real>) {
    forall i | 0 < i < |streak| :: streak[i] - streak[i - 1] >= Delay(c, i)
  }

  lemma {:induction false} StreaksAreSpaced(c: Config, events: seq<Event>, key: Key, now: real)
    requires OnTime(events, now)
    ensures Spaced(c, Streak(c, events, key))
  {
    if events != [] {
      hide Delay, Prune, NextCount, Overflows, Counted;
      var before, e := events[..|events| - 1], events[|events| - 1];
      match e {
        case Attempt(ip, account, t1, t2, _) =>
          StreaksAreSpaced(c, before, key, t1);
          var f, streak := Exec(c, before), Streak(c, before, key);
          CountersTellTheStreak(c, before, key, t1);
          if key in StepOf(c, f, e).counted && streak != [] && t2 - streak[|streak| - 1] <= c.window {
            assert Active(c, f, key, t1) == Some(f[key]);
            assert Remaining(c, f, Ip(ip), Account(account), t1) <= 0.0;
          }
        case Success(_, _) =>
          StreaksAreSpaced(c, before, key, now);
      }
    }
  }

  /** The first k backoffs together. */
  function TotalBackoff(c: Config, k: nat): real {
    if k == 0 then 0.0 else TotalBackoff(c, k - 1) + Backoff(c, k - 1)
  }

  lemma {:induction false} SpacedStreaksTakeTime(c: Config, streak: seq<real>, m: nat)
    requires Spaced(c, streak) && 1 <= c.limit <= m <= |streak|
    ensures streak[m - 1] - streak[c.limit - 1] >= TotalBackoff(c, m - c.limit)
  {
    hide Backoff;
    if c.limit < m {
      SpacedStreaksTakeTime(c, streak, m - 1);
      assert streak[m - 1] - streak[m - 2] >= Delay(c, m - 1);
    }
  }

  /** However addresses and accounts are mixed, the m-th attempt of a streak on a key comes this long after the limit. */
  lemma BackoffIsServed(c: Config, events: seq<Event>, key: Key, now: real, m: nat)
    requires OnTime(events, now) && 1 <= c.limit <= m <= |Streak(c, events, key)|
    ensures var streak := Streak(c, events, key);
            streak[m - 1] - streak[c.limit - 1] >= TotalBackoff(c, m - c.limit)
  {
    StreaksAreSpaced(c, events, key, now);
    SpacedStreaksTakeTime(c, Streak(c, events, key), m);
  }

  // ---------------------------------------------------------------------------
  // Who is refused
  // ---------------------------------------------------------------------------

  /** The last counted attempt of the key's streak still has to be waited out. */
  predicate Waiting(c: Config, streak: seq<real>, now: real) {
    streak != [] && now < streak[|streak| - 1] + Delay(c, |streak|)
  }

  /** The settings let no block outlast the window. */
  predicate BlocksFitTheWindow(c: Config) {
    0.0 <= c.window && c.max <= c.window
  }

  lemma BlockedWhileWaiting(c: Config, f: Failures, streak: seq<real>, key: Key, now: real)
    requires Agrees(c, f, streak, key, now) && BlocksFitTheWindow(c)
    ensures Waiting(c, streak, now) <==> Active(c, f, key, now).Some? && f[key].blockedUntil > now
  {}

  /** When blocks fit the window, an attempt is refused exactly while its address or its account has to wait. */
  lemma RefusedExactlyWhileWaiting(c: Config, events: seq<Event>, e: Event)
    requires e.Attempt? && OnTime(events, e.t1) && BlocksFitTheWindow(c)
    ensures StepOf(c, Exec(c, events), e).outcome.Refused? <==>
            exists key | key in e.Keys() :: Waiting(c, Streak(c, events, key), e.t1)
  {
    hide Agrees, Waiting, Delay, Prune, NextCount, Overflows, Counted, Streak, Exec, OnTime;
    var f, ip, account := Exec(c, events), Ip(e.ip), Account(e.account);
    CountersTellTheStreak(c, events, ip, e.t1);
    CountersTellTheStreak(c, events, account, e.t1);
    BlockedWhileWaiting(c, f, Streak(c, events, ip), ip, e.t1);
    BlockedWhileWaiting(c, f, Streak(c, events, account), account, e.t1);
    assert forall key | key in e.Keys() :: key == ip || key == account;
    assert ip in e.Keys() && account in e.Keys();
  }

  /** The settings do not enforce it: a block is kept to its end exactly when it is no longer than the window. */
  lemma BlockIsKeptIff(c: Config, f: Failures, key: Key)
    requires key in f && 0.0 <= c.window
    ensures (forall now | f[key].lastFailure <= now < f[key].blockedUntil :: Active(c, f, key, now).Some?)
            <==> (f[key].blockedUntil - f[key].lastFailure <= c.window || f[key].blockedUntil <= f[key].lastFailure)
  {
    var s := f[key];
    if s.blockedUntil - s.lastFailure > c.window {
      var now := (s.lastFailure + c.window + s.blockedUntil) / 2.0;
      assert s.lastFailure <= now < s.blockedUntil && Active(c, f, key, now).None?;
    }
  }

  // ---------------------------------------------------------------------------
  // Refused attempts leave no trace
  // ---------------------------------------------------------------------------

  /** No clock reading from now on can tell the two stores apart. */
  ghost predicate Alike(c: Config, f: Failures, g: Failures, now: real) {
    forall key, t | t >= now :: Active(c, f, key, t) == Active(c, g, key, t)
  }

  lemma PruningIsInvisible(c: Config, f: Failures, key: Key, now: real)
    ensures Alike(c, f, Prune(c, f, key, now), now)
  {}

  lemma AlikeCounted(c: Config, f: Failures, g: Failures, key: Key, now: real)
    requires Alike(c, f, g, now)
    ensures Alike(c, Counted(c, f, key, now), Counted(c, g, key, now), now)
    ensures NextCount(c, f, key, now) == NextCount(c, g, key, now)
  {
    assert Active(c, f, key, now) == Active(c, g, key, now);
    forall k, t | t >= now
      ensures Active(c, Counted(c, f, key, now), k, t) == Active(c, Counted(c, g, key, now), k, t)
    {
      assert Active(c, f, k, t) == Active(c, g, k, t);
    }
  }

  lemma AlikePruned(c: Config, f: Failures, g: Failures, ip: Key, account: Key, now: real)
    requires Alike(c, f, g, now)
    ensures Alike(c, PruneBoth(c, f, ip, account, now), PruneBoth(c, g, ip, account, now), now)
    ensures Alike(c, Prune(c, f, ip, now), Prune(c, g, ip, now), now)
    ensures Alike(c, f, PruneBoth(c, f, ip, account, now), now)
    ensures Remaining(c, f, ip, account, now) == Remaining(c, g, ip, account, now)
  {
    hide Prune;
    PruningIsInvisible(c, f, ip, now);
    PruningIsInvisible(c, g, ip, now);
    PruningIsInvisible(c, Prune(c, f, ip, now), account, now);
    PruningIsInvisible(c, Prune(c, g, ip, now), account, now);
    hide Active;
    assert Active(c, f, ip, now) == Active(c, g, ip, now) && Active(c, f, account, now) == Active(c, g, account, now);
  }

  lemma AlikeLater(c: Config, f: Failures, g: Failures, now: real, later: real)
    requires Alike(c, f, g, now) && now <= later
    ensures Alike(c, f, g, later)
  {}

  /** Stores that look alike treat the next attempt alike and still look alike after it. */
  lemma AlikeStep(c: Config, f: Failures, g: Failures, e: Event)
    requires e.Attempt? && Alike(c, f, g, e.t1) && e.t1 <= e.t2 <= e.t3
    ensures var s, t := StepOf(c, f, e), StepOf(c, g, e);
            s.outcome == t.outcome && s.counted == t.counted && Alike(c, s.failures, t.failures, e.t3)
  {
    hide Alike, Prune, PruneBoth, Counted, Remaining, NextCount, Overflows;
    var ip, account := Ip(e.ip), Account(e.account);
    AlikePruned(c, f, g, ip, account, e.t1);
    var f1, g1 := PruneBoth(c, f, ip, account, e.t1), PruneBoth(c, g, ip, account, e.t1);
    AlikeLater(c, f1, g1, e.t1, e.t3);
    AlikeLater(c, f1, g1, e.t1, e.t2);
    AlikePruned(c, f1, g1, ip, account, e.t2);
    AlikeLater(c, Prune(c, f1, ip, e.t2), Prune(c, g1, ip, e.t2), e.t2, e.t3);
    AlikeCounted(c, f1, g1, ip, e.t2);
    var f2, g2 := Counted(c, f1, ip, e.t2), Counted(c, g1, ip, e.t2);
    AlikePruned(c, f2, g2, account, ip, e.t2);
    AlikeLater(c, Prune(c, f2, account, e.t2), Prune(c, g2, account, e.t2), e.t2, e.t3);
    AlikeCounted(c, f2, g2, account, e.t2);
    var f3, g3 := Counted(c, f2, account, e.t2), Counted(c, g2, account, e.t2);
    AlikeLater(c, f3, g3, e.t2, e.t3);
    AlikePruned(c, f3, g3, ip, account, e.t3);
  }

  /** The run without the attempts that it refused. */
  function WithoutRefused(c: Config, events: seq<Event>): seq<Event> {
    if events == [] then []
    else
      var before, e := events[..|events| - 1], events[|events| - 1];
      if e.Attempt? && StepOf(c, Exec(c, before), e).outcome.Refused? then WithoutRefused(c, before)
      else WithoutRefused(c, before) + [e]
  }

  /** Leaving out all refused attempts changes nothing that any later attempt could notice. */
  lemma {:induction false} RefusedAttemptsLeaveNoTrace(c: Config, events: seq<Event>, now: real)
    requires OnTime(events, now)
    ensures Alike(c, Exec(c, events), Exec(c, WithoutRefused(c, events)), now)
  {
    if events != [] {
      hide Attempted, Alike;
      var before, e := events[..|events| - 1], events[|events| - 1];
      var kept := WithoutRefused(c, before);
      assert (kept + [e])[..|kept|] == kept;
      var f, g := Exec(c, before), Exec(c, kept);
      match e {
        case Attempt(_, _, t1, _, t3) =>
          RefusedAttemptsLeaveNoTrace(c, before, t1);
          AlikeStep(c, f, g, e);
          AlikeLater(c, StepOf(c, f, e).failures, StepOf(c, g, e).failures, t3, now);
          RefusalIsInvisible(c, f, g, e, now);
        case Success(_, _) =>
          RefusedAttemptsLeaveNoTrace(c, before, now);
          AlikeWithout(c, f, g, e.Keys(), now);
      }
    }
  }

  lemma RefusalIsInvisible(c: Config, f: Failures, g: Failures, e: Event, now: real)
    requires e.Attempt? && Alike(c, f, g, e.t1) && e.t1 <= now
    ensures StepOf(c, f, e).outcome.Refused? ==> Alike(c, StepOf(c, f, e).failures, g, now)
  {
    hide PruneBoth, Remaining, NextCount, Overflows, Counted, Active;
    AlikePruned(c, f, g, Ip(e.ip), Account(e.account), e.t1);
  }

  lemma AlikeWithout(c: Config, f: Failures, g: Failures, keys: set<Key>, now: real)
    requires Alike(c, f, g, now)
    ensures Alike(c, f - keys, g - keys, now)
  {
    forall key, t | t >= now
      ensures Active(c, f - keys, key, t) == Active(c, g - keys, key, t)
    {
      assert Active(c, f, key, t) == Active(c, g, key, t);
    }
  }

  // ---------------------------------------------------------------------------
  // The end of the doubling
  // ---------------------------------------------------------------------------

  /** With a positive limit, a streak never grows past the largest power of two. */
  lemma {:induction false} StreaksEnd(c: Config, events: seq<Event>, key: Key, now: real)
    requires OnTime(events, now) && 1 <= c.limit
    ensures |Streak(c, events, key)| < c.limit + MAX_EXPONENT
  {
    if events != [] {
      hide Delay;
      var before, e := events[..|events| - 1], events[|events| - 1];
      match e {
        case Attempt(_, _, t1, t2, _) =>
          StreaksEnd(c, before, key, t1);
          CountersTellTheStreak(c, before, key, t1);
          if key in StepOf(c, Exec(c, before), e).counted {
            CountedKeysDoNotOverflow(c, Exec(c, before), Streak(c, before, key), key, e);
          }
        case Success(_, _) =>
          StreaksEnd(c, before, key, now);
      }
    }
  }

  lemma CountedKeysDoNotOverflow(c: Config, f: Failures, streak: seq<real>, key: Key, e: Event)
    requires e.Attempt? && Agrees(c, f, streak, key, e.t1) && e.t1 <= e.t2 && key in StepOf(c, f, e).counted
    ensures !Overflows(c, |Extend(c, streak, e.t2)|)
  {
    hide Delay, Remaining;
    var ip, account := Ip(e.ip), Account(e.account);
    var f1 := PruneBoth(c, f, ip, account, e.t1);
    AgreesPruned(c, f, streak, key, ip, e.t1);
    AgreesPruned(c, Prune(c, f, ip, e.t1), streak, key, account, e.t1);
    assert NextCount(c, f1, key, e.t2) == |Extend(c, streak, e.t2)|;
    assert ip != account;
    assert key == account ==> NextCount(c, Counted(c, f1, ip, e.t2), key, e.t2) == NextCount(c, f1, key, e.t2);
  }
}
