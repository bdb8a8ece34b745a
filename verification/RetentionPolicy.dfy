/**
 The calendar and the keep/delete policy behind retention.

 Instants are microseconds. The business timezone is a fixed offset from UTC, so local
 time is UTC plus a constant and every calendar fact is a fact about local days.
 */
module RetentionPolicy {

  const HOUR := 3_600_000_000
  const DAY := 24 * HOUR
  const TIMEZONE_OFFSET := 8 * HOUR

  /** Month indices follow the source: twelve times the year, plus the month from 1 to 12. */
  const EPOCH_MONTH := 1970 * 12 + 1

  function Local(utc: int): int {
    utc + TIMEZONE_OFFSET
  }

  /** Local days, counted from 1970-01-01. */
  function DayOf(local: int): int {
    local / DAY
  }

  /** Monday is 0; 1970-01-01 was a Thursday. */
  function Weekday(day: int): int {
    (day + 3) % 7
  }

  // ---------------------------------------------------------------------------
  // Gregorian months
  // ---------------------------------------------------------------------------

  predicate IsLeap(year: int) {
    year % 4 == 0 && (year % 100 != 0 || year % 400 == 0)
  }

  function DaysInMonth(index: int): (days: int)
    ensures 28 <= days <= 31
  {
    var year, month := (index - 1) / 12, (index - 1) % 12 + 1;
    if month == 2 then (if IsLeap(year) then 29 else 28)
    else if month in {4, 6, 9, 11} then 30
    else 31
  }

  /** The first day of the month with the given index. */
  function MonthStart(index: int): int
    decreases if index < EPOCH_MONTH then EPOCH_MONTH - index else index - EPOCH_MONTH
  {
    if index == EPOCH_MONTH then 0
    else if index > EPOCH_MONTH then MonthStart(index - 1) + DaysInMonth(index - 1)
    else MonthStart(index + 1) - DaysInMonth(index)
  }

  lemma NextMonthStarts(index: int)
    ensures MonthStart(index + 1) == MonthStart(index) + DaysInMonth(index)
  {
  }

  /** Later months start later. */
  lemma {:induction false} MonthStartMonotone(m: int, n: int)
    requires m <= n
    ensures MonthStart(m) <= MonthStart(n)
    decreases n - m
  {
    if m < n {
      NextMonthStarts(m);
      MonthStartMonotone(m + 1, n);
    }
  }

  function MonthFrom(day: int, index: int): (m: int)
    requires MonthStart(index) <= day
    ensures MonthStart(m) <= day < MonthStart(m + 1)
    decreases day - MonthStart(index)
  {
    assert MonthStart(index + 1) == MonthStart(index) + DaysInMonth(index);
    if day < MonthStart(index + 1) then index else MonthFrom(day, index + 1)
  }

  function MonthBack(day: int, index: int): (m: int)
    requires day < MonthStart(index + 1)
    ensures MonthStart(m) <= day < MonthStart(m + 1)
    decreases MonthStart(index + 1) - day
  {
    assert MonthStart(index + 1) == MonthStart(index) + DaysInMonth(index);
    if MonthStart(index) <= day then index else MonthBack(day, index - 1)
  }

  /** The index of the month that contains a day. */
  function MonthIndex(day: int): (m: int)
    ensures MonthStart(m) <= day < MonthStart(m + 1)
  {
    if day >= 0 then MonthFrom(day, EPOCH_MONTH) else MonthBack(day, EPOCH_MONTH - 1)
  }

  /** A day lies in or after a month exactly when it is not before that month's first day. */
  lemma MonthIndexAtLeast(day: int, m: int)
    ensures MonthIndex(day) >= m <==> day >= MonthStart(m)
  {
    if MonthIndex(day) >= m {
      MonthStartMonotone(m, MonthIndex(day));
    } else {
      MonthStartMonotone(MonthIndex(day) + 1, m);
    }
  }

  /** The leap days up to and including February of a year. */
  function LeapDays(year: int): int {
    year / 4 - year / 100 + year / 400
  }

  /** The Gregorian calendar in closed form: the day number of a date, with years that begin in March. */
  function CivilDay(year: int, month: int, day: int): int {
    var y, m := if month <= 2 then year - 1 else year, if month <= 2 then month + 9 else month - 3;
    365 * y + LeapDays(y) + (153 * m + 2) / 5 + day - 719_469
  }

  function NextMonth(year: int, month: int): (int, int) {
    if month == 12 then (year + 1, 1) else (year, month + 1)
  }

  lemma EveryMultipleOnce(year: int, n: int)
    requires n in {4, 100, 400}
    ensures year / n == (year - 1) / n + if year % n == 0 then 1 else 0
  {
  }

  lemma MultiplesNest(q: int)
    ensures (400 * q) % 100 == 0 && (100 * q) % 4 == 0
  {
    assert 400 * q == 100 * (4 * q) && 100 * q == 4 * (25 * q);
  }

  lemma LeapYearsAddADay(year: int)
    ensures LeapDays(year) == LeapDays(year - 1) + if IsLeap(year) then 1 else 0
  {
    EveryMultipleOnce(year, 4);
    EveryMultipleOnce(year, 100);
    EveryMultipleOnce(year, 400);
    MultiplesNest(year / 400);
    MultiplesNest(year / 100);
  }

  lemma IndexParts(year: int, month: int)
    requires 1 <= month <= 12
    ensures (12 * year + month - 1) / 12 == year && (12 * year + month - 1) % 12 + 1 == month
  {
  }

  lemma CivilMonthsHaveTheirDays(year: int, month: int)
    requires 1 <= month <= 12
    ensures var (y, m) := NextMonth(year, month);
            CivilDay(y, m, 1) == CivilDay(year, month, 1) + DaysInMonth(12 * year + month)
  {
    hide LeapDays, IsLeap;
    IndexParts(year, month);
    if month == 2 {
      LeapYearsAddADay(year);
    } else if month == 12 {
      assert CivilDay(year + 1, 1, 1) == CivilDay(year, 12, 1) + 31;
    } else {
      assert month in {1, 3, 4, 5, 6, 7, 8, 9, 10, 11};
    }
  }

  lemma TheEpoch()
    ensures MonthStart(EPOCH_MONTH) == CivilDay(1970, 1, 1) == 0
  {
  }

  /** Counting month lengths from the epoch, in either direction, gives the Gregorian calendar. */
  lemma {:induction false} MonthsAreGregorian(year: int, month: int)
    requires 1 <= month <= 12
    ensures MonthStart(12 * year + month) == CivilDay(year, month, 1)
    decreases if 12 * year + month < EPOCH_MONTH then EPOCH_MONTH - 12 * year - month else 12 * year + month - EPOCH_MONTH
  {
    TheEpoch();
    hide CivilDay, MonthStart, DaysInMonth;
    if 12 * year + month > EPOCH_MONTH {
      var y, m := if month == 1 then year - 1 else year, if month == 1 then 12 else month - 1;
      assert NextMonth(y, m) == (year, month) && 12 * y + m + 1 == 12 * year + month;
      MonthsAreGregorian(y, m);
      CivilMonthsHaveTheirDays(y, m);
      NextMonthStarts(12 * y + m);
    } else if 12 * year + month < EPOCH_MONTH {
      var (y, m) := NextMonth(year, month);
      assert 12 * year + month + 1 == 12 * y + m;
      CivilMonthsHaveTheirDays(year, month);
      MonthsAreGregorian(y, m);
      NextMonthStarts(12 * year + month);
    } else {
      assert year == 1970 && month == 1;
    }
  }

  // ---------------------------------------------------------------------------
  // Generations and decisions
  // ---------------------------------------------------------------------------

  /** Generation tags. An ISO week is named by its Monday, a month by its index. */
  datatype Tag = Daily(day: int) | Weekly(monday: int) | Monthly(month: int)

  datatype Reason = KeptDaily | KeptWeekly | KeptMonthly | UniqueVerified

  /**
   The retention contract as rotation sees it: the generations of a freeze instant, and
   the reasons a generation gives for keeping a point at some clock reading.
   */
  datatype Contract = Contract(tags: int -> set<Tag>, reasons: (int, set<Tag>, int) -> seq<Reason>) {

    /** No generation keeps a point frozen at this instant. */
    predicate Expired(frozen: int, now: int) {
      reasons(frozen, tags(frozen), now) == []
    }

    /** Expiry is permanent: no later clock reading revives a point. */
    ghost predicate Permanent() {
      forall frozen, now, later :: now <= later && Expired(frozen, now) ==> Expired(frozen, later)
    }
  }

  function GenerationTags(frozen: int): set<Tag> {
    var day := DayOf(Local(frozen));
    {Daily(day)}
    + (if Weekday(day) == 0 then {Weekly(day)} else {})
    + (if day == MonthStart(MonthIndex(day)) then {Monthly(MonthIndex(day))} else {})
  }

  lemma MonthOfDate(year: int, month: int, day: int)
    requires 1 <= month <= 12 && 1 <= day <= DaysInMonth(12 * year + month)
    ensures MonthIndex(CivilDay(year, month, day)) == 12 * year + month
    ensures MonthStart(12 * year + month) == CivilDay(year, month, 1)
  {
    var date, m := CivilDay(year, month, day), 12 * year + month;
    assert date == CivilDay(year, month, 1) + day - 1;
    var (y', m') := NextMonth(year, month);
    assert 12 * y' + m' == m + 1;
    hide CivilDay, MonthStart, DaysInMonth, MonthIndex;
    MonthsAreGregorian(year, month);
    CivilMonthsHaveTheirDays(year, month);
    MonthsAreGregorian(y', m');
    MonthIndexAtLeast(date, m);
    MonthIndexAtLeast(date, m + 1);
  }

  lemma DayIsUnique(local: int, day: int)
    requires day * DAY <= local < day * DAY + DAY
    ensures DayOf(local) == day
  {
  }

  lemma MondaysRepeat(day: int)
    ensures Weekday(day) == 0 <==> (day - CivilDay(2026, 8, 3)) % 7 == 0
  {
    assert CivilDay(2026, 8, 3) == 20_668;
  }

  /**
   The tags of a freeze instant, by its civil date in the business timezone, eight hours ahead of UTC: always the day,
   the week on a Monday (3 August 2026 was one), and the month on the first of it.
   */
  lemma TagsFollowTheLocalDate(frozen: int, year: int, month: int, day: int)
    requires 1 <= month <= 12 && 1 <= day <= DaysInMonth(12 * year + month)
    requires CivilDay(year, month, day) * DAY - 8 * HOUR <= frozen < CivilDay(year, month, day) * DAY + 16 * HOUR
    ensures var date, monday := CivilDay(year, month, day), CivilDay(2026, 8, 3);
            GenerationTags(frozen) == {Daily(date)}
              + (if (date - monday) % 7 == 0 then {Weekly(date)} else {})
              + (if day == 1 then {Monthly(12 * year + month)} else {})
  {
    var date := CivilDay(year, month, day);
    DayIsUnique(Local(frozen), date);
    MondaysRepeat(date);
    MonthOfDate(year, month, day);
    assert date == CivilDay(year, month, 1) + day - 1;
    hide CivilDay, MonthStart, MonthIndex, DaysInMonth, Weekday, DayOf, Local;
  }

  predicate HasWeekly(tags: set<Tag>) {
    exists t | t in tags :: t.Weekly?
  }

  predicate HasMonthly(tags: set<Tag>) {
    exists t | t in tags :: t.Monthly?
  }

  /** The reasons retention finds to keep a point, in the order it looks for them. */
  function GenerationReasons(frozen: int, tags: set<Tag>, now: int): seq<Reason> {
    var local, localNow := Local(frozen), Local(now);
    (if Daily(DayOf(local)) in tags && local > localNow - 14 * DAY then [KeptDaily] else [])
    + (if HasWeekly(tags) && local > localNow - 56 * DAY then [KeptWeekly] else [])
    + (if HasMonthly(tags) && MonthIndex(DayOf(localNow)) - MonthIndex(DayOf(local)) < 6
       then [KeptMonthly] else [])
  }

  const BUSINESS_CONTRACT :=
    Contract(frozen => GenerationTags(frozen), (frozen, tags, now) => GenerationReasons(frozen, tags, now))

  predicate PastEveryCutoff(frozen: int, now: int) {
    var day, today := DayOf(Local(frozen)), DayOf(Local(now));
    && frozen <= now - 14 * DAY
    && (Weekday(day) == 0 ==> frozen <= now - 56 * DAY)
    && (day == MonthStart(MonthIndex(day)) ==> day < MonthStart(MonthIndex(today) - 5))
  }

  /**
   The policy as cut-off instants: a point expires when it is 14 days old, unless it was
   frozen on a local Monday less than eight weeks ago, or on the first local day of the
   current month or of one of the five months before it.
   */
  lemma ExpiredIffPastEveryCutoff(frozen: int, now: int)
    ensures BUSINESS_CONTRACT.Expired(frozen, now) <==> PastEveryCutoff(frozen, now)
  {
    var day, today := DayOf(Local(frozen)), DayOf(Local(now));
    var tags := GenerationTags(frozen);
    MonthIndexAtLeast(day, MonthIndex(today) - 5);
    assert Daily(day) in tags;
    assert HasWeekly(tags) <==> Weekday(day) == 0 by {
      if Weekday(day) == 0 { assert Weekly(day) in tags; }
    }
    assert HasMonthly(tags) <==> day == MonthStart(MonthIndex(day)) by {
      if day == MonthStart(MonthIndex(day)) { assert Monthly(MonthIndex(day)) in tags; }
    }
  }

  lemma DaysOnlyAdvance(now: int, later: int)
    requires now <= later
    ensures DayOf(Local(now)) <= DayOf(Local(later))
  {
  }

  /** Which reasons are found, each by its own cut-off. */
  lemma ReasonsFollowTheCutoffs(frozen: int, now: int)
    ensures var day, today := DayOf(Local(frozen)), DayOf(Local(now));
            var reasons := GenerationReasons(frozen, GenerationTags(frozen), now);
            && (KeptDaily in reasons <==> frozen > now - 14 * DAY)
            && (KeptWeekly in reasons <==> Weekday(day) == 0 && frozen > now - 56 * DAY)
            && (KeptMonthly in reasons <==>
                  day == MonthStart(MonthIndex(day)) && day >= MonthStart(MonthIndex(today) - 5))
            && UniqueVerified !in reasons
  {
    var day, today, tags := DayOf(Local(frozen)), DayOf(Local(now)), GenerationTags(frozen);
    MonthIndexAtLeast(day, MonthIndex(today) - 5);
    assert Daily(day) in tags;
    assert HasWeekly(tags) <==> Weekday(day) == 0 by {
      if Weekday(day) == 0 { assert Weekly(day) in tags; }
    }
    assert HasMonthly(tags) <==> day == MonthStart(MonthIndex(day)) by {
      if day == MonthStart(MonthIndex(day)) { assert Monthly(MonthIndex(day)) in tags; }
    }
    hide MonthStart, MonthIndex, Weekday, DayOf, HasWeekly, HasMonthly, GenerationTags;
  }

  /** Once past every cut-off, a point stays past them. */
  lemma CutoffsOnlyAdvance(frozen: int, now: int, later: int)
    requires now <= later && PastEveryCutoff(frozen, now)
    ensures PastEveryCutoff(frozen, later)
  {
    hide MonthStart, MonthIndex, DayOf, Weekday, Local;
    var today, laterDay := DayOf(Local(now)), DayOf(Local(later));
    DaysOnlyAdvance(now, later);
    MonthIndexAtLeast(laterDay, MonthIndex(today));
    MonthStartMonotone(MonthIndex(today) - 5, MonthIndex(laterDay) - 5);
  }

  lemma BusinessExpiryIsPermanent()
    ensures BUSINESS_CONTRACT.Permanent()
  {
    forall frozen, now, later | now <= later && BUSINESS_CONTRACT.Expired(frozen, now)
      ensures BUSINESS_CONTRACT.Expired(frozen, later)
    {
      ExpiredIffPastEveryCutoff(frozen, now);
      CutoffsOnlyAdvance(frozen, now, later);
      ExpiredIffPastEveryCutoff(frozen, later);
    }
  }
}
