// The session clocks of backend/clients/shared_bars_cache.py: which daily session and which
// 60-minute bar is the newest one completed at a reference time. Times are seconds of Eastern
// wall time, dates are days since 1970-01-01 (a Thursday).
module TradingClock {
  import opened Options

  const DAY := 86400
  const HOUR := 3600
  const OPEN := 34200    // 09:30
  const CLOSE := 57600   // 16:00
  const LAST_BAR := 21600  // 15:30, after the open
  const LOOKBACK := 14
  // starts and ends of the seven bars of a session, after its open
  const BAR_STARTS := [0, 3600, 7200, 10800, 14400, 18000, 21600]
  const BAR_ENDS := [3600, 7200, 10800, 14400, 18000, 21600, 23400]

  function DateOf(t: int): int { t / DAY }

  // Monday is 0.
  function Weekday(date: int): int { (date + 3) % 7 }

  datatype Session = Session(day: int, opens: int, closes: int)

  // Sessions in order, each on its own day, none overlapping the next.
  ghost predicate Calendar(sessions: seq<Session>) {
    && (forall s :: s in sessions ==> WithinDay(s))
    && forall i, j :: 0 <= i < j < |sessions| ==> sessions[i].day < sessions[j].day
  }

  ghost predicate WithinDay(s: Session) {
    s.opens < s.closes && s.opens / 86400 == s.day == s.closes / 86400
  }

  // The sessions on days [from, to].
  function Between(sessions: seq<Session>, from: int, to: int): (part: seq<Session>)
    ensures forall s :: s in part <==> s in sessions && from <= s.day <= to
  {
    if sessions == [] then []
    else
      var head := sessions[0];
      assert sessions == [head] + sessions[1..];
      (if from <= head.day <= to then [head] else []) + Between(sessions[1..], from, to)
  }

  function Recent(sessions: seq<Session>, now: int): seq<Session> {
    Between(sessions, DateOf(now) - LOOKBACK, DateOf(now))
  }

  // ---- the calendar clock ----

  // The newest session already closed.
  function CompletedSession(sessions: seq<Session>, now: int): Option<Session>
    decreases |sessions|
  {
    if sessions == [] then None
    else
      var s := sessions[|sessions| - 1];
      if s.closes <= now then Some(s) else CompletedSession(sessions[..|sessions| - 1], now)
  }

  function Min(a: int, b: int): int { if a <= b then a else b }

  // A slot of a session: 60 minutes from its start, cut at the close.
  predicate IsSlot(s: Session, start: int) {
    s.opens <= start < s.closes && (start - s.opens) % 3600 == 0
  }

  function SlotEnd(s: Session, start: int): int {
    Min(start + HOUR, s.closes)
  }

  // The newest fully elapsed slot at or after `start`.
  function LastSlotFrom(s: Session, start: int, now: int): Option<int>
    decreases s.closes - start
  {
    if start < s.closes && SlotEnd(s, start) <= now then
      var later := LastSlotFrom(s, start + HOUR, now);
      if later.Some? then later else Some(start)
    else None
  }

  function CompletedBar(sessions: seq<Session>, now: int): Option<int>
    decreases |sessions|
  {
    if sessions == [] then None
    else
      var s := sessions[|sessions| - 1];
      var slot := if s.opens > now then None else LastSlotFrom(s, s.opens, now);
      if slot.Some? then slot else CompletedBar(sessions[..|sessions| - 1], now)
  }

  // None stands for the LookupError that makes the caller fall back.
  method CalendarCompletedTradingDate(sessions: seq<Session>, now: int) returns (day: Option<int>)
    ensures var s := CompletedSession(Recent(sessions, now), now); day == if s.Some? then Some(s.value.day) else None
  {
    var recent := Recent(sessions, now);
    var i := |recent|;
    assert recent[..i] == recent;
    while i > 0
      invariant 0 <= i <= |recent|
      invariant CompletedSession(recent, now) == CompletedSession(recent[..i], now)
    {
      assert recent[..i][..i - 1] == recent[..i - 1];
      i := i - 1;
      if recent[i].closes <= now {
        return Some(recent[i].day);
      }
    }
    day := None;
  }

  method CalendarIntradayBarStart(sessions: seq<Session>, now: int) returns (start: Option<int>)
    ensures start == CompletedBar(Recent(sessions, now), now)
  {
    var recent := Recent(sessions, now);
    var i := |recent|;
    assert recent[..i] == recent;
    while i > 0
      invariant 0 <= i <= |recent|
      invariant CompletedBar(recent, now) == CompletedBar(recent[..i], now)
    {
      assert recent[..i][..i - 1] == recent[..i - 1];
      i := i - 1;
      var s := recent[i];
      if s.opens <= now {
        var last: Option<int> := None;
        var slot := s.opens;
        while slot < s.closes && SlotEnd(s, slot) <= now
          invariant LastSlotFrom(s, s.opens, now)
                 == if LastSlotFrom(s, slot, now).Some? then LastSlotFrom(s, slot, now) else last
          decreases s.closes - slot
        {
          last := Some(slot);
          slot := slot + HOUR;
        }
        if last.Some? {
          return last;
        }
      }
    }
    start := None;
  }

  // ---- the weekday-only clock ----

  function LastWeekday(date: int): int
    decreases Weekday(date)
  {
    if Weekday(date) >= 5 then LastWeekday(date - 1) else date
  }

  function WeekdayDate(now: int): int {
    LastWeekday(if now % DAY < CLOSE then DateOf(now) - 1 else DateOf(now))
  }

  // The start of the last bar that ended by `since` seconds after the open.
  function LastEnded(since: int, bars: nat): Option<int>
    requires bars <= |BAR_ENDS|
  {
    if bars == 0 then None
    else if since >= BAR_ENDS[bars - 1] then Some(BAR_STARTS[bars - 1])
    else LastEnded(since, bars - 1)
  }

  function WeekdayBar(now: int): int {
    var since := now - (DateOf(now) * DAY + OPEN);
    var ended := if Weekday(DateOf(now)) < 5 && since >= 0 then LastEnded(since, |BAR_ENDS|) else None;
    if ended.Some? then DateOf(now) * DAY + OPEN + ended.value
    else WeekdayDate(now) * DAY + OPEN + LAST_BAR
  }

  method WeekdayOnlyCompletedTradingDate(now: int) returns (date: int)
    ensures date == WeekdayDate(now)
  {
    date := DateOf(now);
    if now % DAY / HOUR < 16 {
      date := date - 1;
    }
    while Weekday(date) >= 5
      invariant LastWeekday(date) == WeekdayDate(now)
      decreases Weekday(date)
    {
      date := date - 1;
    }
  }

  method WeekdayOnlyIntradayBarStart(now: int) returns (start: int)
    ensures start == WeekdayBar(now)
  {
    var open := DateOf(now) * DAY + OPEN;
    var completed: Option<int> := None;
    if Weekday(DateOf(now)) < 5 && now >= open {
      for k := 0 to |BAR_ENDS|
        invariant completed == LastEnded(now - open, k)
      {
        if now - open >= BAR_ENDS[k] {
          completed := Some(BAR_STARTS[k]);
        }
      }
    }
    if completed.Some? {
      return open + completed.value;
    }
    var date := WeekdayOnlyCompletedTradingDate(now);
    start := date * DAY + OPEN + BAR_STARTS[|BAR_STARTS| - 1];
  }

  // ---- any calendar: the newest completed, and monotone ----

  // `s` is the newest session of the calendar that has closed by `now`.
  ghost predicate NewestClosed(sessions: seq<Session>, s: Session, now: int) {
    && s in sessions && s.closes <= now
    && forall t :: t in sessions && t.closes <= now ==> t.day <= s.day
  }

  // What a search of some sessions may find: nothing when none has closed, else the newest.
  ghost predicate IsDailyClock(found: Option<Session>, sessions: seq<Session>, now: int) {
    && (found.Some? ==> NewestClosed(sessions, found.value, now))
    && (found.None? ==> forall s :: s in sessions ==> s.closes > now)
  }

  lemma {:induction false} CompletedSessionFound(sessions: seq<Session>, now: int)
    requires Calendar(sessions)
    ensures IsDailyClock(CompletedSession(sessions, now), sessions, now)
    decreases |sessions|
  {
    if sessions != [] {
      var n := |sessions| - 1;
      assert sessions == sessions[..n] + [sessions[n]];
      CompletedSessionFound(sessions[..n], now);
    }
  }

  lemma EarlierInFront(head: Session, rest: seq<Session>)
    requires WithinDay(head) && Calendar(rest) && forall s :: s in rest ==> head.day < s.day
    ensures Calendar([head] + rest)
  {
  }

  lemma {:induction false} BetweenIsCalendar(sessions: seq<Session>, from: int, to: int)
    requires Calendar(sessions)
    ensures Calendar(Between(sessions, from, to))
  {
    if sessions != [] {
      BetweenIsCalendar(sessions[1..], from, to);
      var rest := Between(sessions[1..], from, to);
      forall s | s in rest
        ensures sessions[0].day < s.day
      {
        assert s in sessions[1..];
      }
      EarlierInFront(sessions[0], rest);
    }
  }

  // `found` is the newest session closed; none is found only when nothing has closed since `from`.
  ghost predicate NamesNewest(found: Option<Session>, sessions: seq<Session>, from: int, now: int) {
    && (found.Some? ==> NewestClosed(sessions, found.value, now))
    && (found.None? ==> forall s :: s in sessions && s.closes <= now ==> s.day < from)
  }

  // Everything closed lies on days up to `to`.
  ghost predicate ClosedUpTo(sessions: seq<Session>, to: int, now: int) {
    forall s :: s in sessions && s.closes <= now ==> s.day <= to
  }

  // So searching days [from, to] is enough.
  lemma NewestOfPart(sessions: seq<Session>, part: seq<Session>, from: int, to: int, found: Option<Session>, now: int)
    requires forall s :: s in part <==> s in sessions && from <= s.day <= to
    requires IsDailyClock(found, part, now) && ClosedUpTo(sessions, to, now)
    ensures NamesNewest(found, sessions, from, now)
  {
  }

  lemma ClosedByNow(sessions: seq<Session>, now: int)
    requires Calendar(sessions)
    ensures ClosedUpTo(sessions, DateOf(now), now)
  {
    forall s | s in sessions && s.closes <= now
      ensures s.day <= DateOf(now)
    {
      assert WithinDay(s);
      DatesMonotone(s.closes, now);
    }
  }

  lemma DatesMonotone(a: int, b: int)
    requires a <= b
    ensures DateOf(a) <= DateOf(b)
  {
  }

  lemma ClockOfDays(sessions: seq<Session>, from: int, to: int, now: int)
    requires Calendar(sessions) && ClosedUpTo(sessions, to, now)
    ensures NamesNewest(CompletedSession(Between(sessions, from, to), now), sessions, from, now)
  {
    var part := Between(sessions, from, to);
    BetweenIsCalendar(sessions, from, to);
    CompletedSessionFound(part, now);
    NewestOfPart(sessions, part, from, to, CompletedSession(part, now), now);
  }

  // On any calendar the daily clock names the newest session that has closed; it fails only
  // when none has closed in the last fortnight.
  lemma DailyClockIsNewest(sessions: seq<Session>, now: int)
    requires Calendar(sessions)
    ensures NamesNewest(CompletedSession(Recent(sessions, now), now), sessions, now / 86400 - 14, now)
  {
    ClosedByNow(sessions, now);
    ClockOfDays(sessions, DateOf(now) - LOOKBACK, DateOf(now), now);
  }

  lemma DailyClockMonotone(sessions: seq<Session>, now: int, later: int)
    requires Calendar(sessions) && now <= later
    requires CompletedSession(Recent(sessions, now), now).Some?
    requires CompletedSession(Recent(sessions, later), later).Some?
    ensures CompletedSession(Recent(sessions, now), now).value.day
         <= CompletedSession(Recent(sessions, later), later).value.day
  {
    DailyClockIsNewest(sessions, now);
    DailyClockIsNewest(sessions, later);
  }

  // The slot has fully elapsed: its hour has, or its session has closed.
  ghost predicate Elapsed(sessions: seq<Session>, s: Session, start: int, now: int) {
    s in sessions && IsSlot(s, start) && (start + 3600 <= now || s.closes <= now)
  }

  // `start` is the newest slot of the calendar that has fully elapsed by `now`.
  ghost predicate NewestElapsed(sessions: seq<Session>, start: int, now: int) {
    && (exists s :: Elapsed(sessions, s, start, now))
    && forall s, other :: Elapsed(sessions, s, other, now) ==> other <= start
  }

  lemma {:induction false} LastSlotFound(s: Session, start: int, now: int)
    requires (start - s.opens) % HOUR == 0 && s.opens <= start
    ensures var found := LastSlotFrom(s, start, now);
      && (found.Some? ==> IsSlot(s, found.value) && SlotEnd(s, found.value) <= now && start <= found.value)
      && (forall other :: IsSlot(s, other) && SlotEnd(s, other) <= now && start <= other ==>
            found.Some? && other <= found.value)
    decreases s.closes - start
  {
    if start < s.closes && SlotEnd(s, start) <= now {
      LastSlotFound(s, start + HOUR, now);
    }
    forall other | IsSlot(s, other) && SlotEnd(s, other) <= now && start <= other
      ensures start < s.closes && SlotEnd(s, start) <= now && (other == start || start + HOUR <= other)
    {
      NextSlot(s.opens, start, other);
    }
  }

  lemma NextSlot(origin: int, a: int, b: int)
    requires (a - origin) % HOUR == 0 && (b - origin) % HOUR == 0 && a <= b
    ensures a == b || a + HOUR <= b
  {
  }

  lemma {:induction false} CompletedBarFound(sessions: seq<Session>, now: int)
    requires Calendar(sessions)
    ensures IsClock(CompletedBar(sessions, now), sessions, now)
    decreases |sessions|
  {
    if sessions != [] {
      var n := |sessions| - 1;
      var earlier, s := sessions[..n], sessions[n];
      assert sessions == earlier + [s];
      CompletedBarFound(earlier, now);
      var slot := if s.opens > now then None else LastSlotFrom(s, s.opens, now);
      assert WithinDay(s);
      LastSlotOfSession(s, now);
      NewestOfTwo(sessions, earlier, s, now, CompletedBar(earlier, now), slot);
    }
  }

  // What a clock may answer: nothing when no slot has elapsed, else the newest.
  ghost predicate IsClock(found: Option<int>, sessions: seq<Session>, now: int) {
    && (found.Some? ==> NewestElapsed(sessions, found.value, now))
    && (found.None? ==> forall s, start :: !Elapsed(sessions, s, start, now))
  }

  // The last slot of a session that has elapsed, if any.
  ghost predicate IsLastSlot(s: Session, found: Option<int>, now: int) {
    && (found.Some? ==> IsSlot(s, found.value) && SlotEnd(s, found.value) <= now)
    && (forall other :: IsSlot(s, other) && SlotEnd(s, other) <= now ==> found.Some? && other <= found.value)
  }

  lemma LastSlotOfSession(s: Session, now: int)
    requires s.opens < s.closes
    ensures IsLastSlot(s, if s.opens > now then None else LastSlotFrom(s, s.opens, now), now)
  {
    LastSlotFound(s, s.opens, now);
  }

  // The newest of two finds, the second from a session after all the others.
  lemma NewestOfTwo(sessions: seq<Session>, earlier: seq<Session>, last: Session, now: int,
                    before: Option<int>, slot: Option<int>)
    requires Calendar(sessions) && sessions == earlier + [last]
    requires IsLastSlot(last, slot, now) && IsClock(before, earlier, now)
    ensures IsClock(if slot.Some? then slot else before, sessions, now)
  {
    var found := if slot.Some? then slot else before;
    forall s, start | Elapsed(sessions, s, start, now)
      ensures found.Some? && start <= found.value
    {
      NotNewer(sessions, earlier, last, now, before, slot, s, start);
    }
    if slot.Some? {
      assert Elapsed(sessions, last, slot.value, now);
    } else if before.Some? {
      var s :| Elapsed(earlier, s, before.value, now);
      assert Elapsed(sessions, s, before.value, now);
    }
  }

  // A newer session's slots come after all earlier ones.
  lemma NotNewer(sessions: seq<Session>, earlier: seq<Session>, last: Session, now: int,
                 before: Option<int>, slot: Option<int>, s: Session, start: int)
    requires Calendar(sessions) && sessions == earlier + [last]
    requires IsLastSlot(last, slot, now) && IsClock(before, earlier, now)
    requires Elapsed(sessions, s, start, now)
    ensures var found := if slot.Some? then slot else before; found.Some? && start <= found.value
  {
    if s in earlier {
      assert sessions[..|sessions| - 1] == earlier;
      assert Elapsed(earlier, s, start, now);
      EarlierSlot(sessions, s, start);
    }
  }

  lemma EarlierSlot(sessions: seq<Session>, s: Session, start: int)
    requires Calendar(sessions) && sessions != [] && s in sessions[..|sessions| - 1] && IsSlot(s, start)
    ensures start < sessions[|sessions| - 1].opens
  {
    var i :| 0 <= i < |sessions| - 1 && sessions[i] == s;
    assert WithinDay(s) && WithinDay(sessions[|sessions| - 1]);
    assert DateOf(s.closes) < DateOf(sessions[|sessions| - 1].opens);
  }

  // `found` is the newest slot elapsed; none is found only when nothing has elapsed since `from`.
  ghost predicate NamesNewestSlot(found: Option<int>, sessions: seq<Session>, from: int, now: int) {
    && (found.Some? ==> NewestElapsed(sessions, found.value, now))
    && (found.None? ==> forall s, start :: Elapsed(sessions, s, start, now) ==> s.day < from)
  }

  // Searching days [from, to] is enough when everything elapsed lies on days up to `to`.
  lemma NewestSlotOfPart(sessions: seq<Session>, from: int, to: int, found: Option<int>, now: int)
    requires Calendar(sessions) && IsClock(found, Between(sessions, from, to), now)
    requires forall s, start :: Elapsed(sessions, s, start, now) ==> s.day <= to
    ensures NamesNewestSlot(found, sessions, from, now)
  {
    var part := Between(sessions, from, to);
    forall s, start | Elapsed(sessions, s, start, now) && from <= s.day
      ensures Elapsed(part, s, start, now)
    {
    }
    if found.Some? {
      var s :| Elapsed(part, s, found.value, now);
      assert Elapsed(sessions, s, found.value, now);
      forall t, other | Elapsed(sessions, t, other, now)
        ensures other <= found.value
      {
        if t.day < from {
          SlotsFollowDays(sessions, t, other, s, found.value);
        }
      }
    }
  }

  lemma SlotsFollowDays(sessions: seq<Session>, s: Session, start: int, t: Session, other: int)
    requires Calendar(sessions) && s in sessions && t in sessions && IsSlot(s, start) && IsSlot(t, other)
    requires s.day < t.day
    ensures start < other
  {
    assert WithinDay(s) && WithinDay(t);
  }

  lemma ElapsedByNow(sessions: seq<Session>, s: Session, start: int, now: int)
    requires Calendar(sessions) && Elapsed(sessions, s, start, now)
    ensures s.day <= DateOf(now)
  {
    assert WithinDay(s) && s.opens <= now;
  }

  // On any calendar the 60m clock names the newest slot that has fully elapsed, half days and
  // all; it fails only when none has in the last fortnight.
  lemma IntradayClockIsNewest(sessions: seq<Session>, now: int)
    requires Calendar(sessions)
    ensures NamesNewestSlot(CompletedBar(Recent(sessions, now), now), sessions, now / 86400 - 14, now)
  {
    var from, to := DateOf(now) - LOOKBACK, DateOf(now);
    BetweenIsCalendar(sessions, from, to);
    CompletedBarFound(Recent(sessions, now), now);
    forall s, start | Elapsed(sessions, s, start, now)
      ensures s.day <= to
    {
      ElapsedByNow(sessions, s, start, now);
    }
    NewestSlotOfPart(sessions, from, to, CompletedBar(Recent(sessions, now), now), now);
  }

  lemma IntradayClockMonotone(sessions: seq<Session>, now: int, later: int)
    requires Calendar(sessions) && now <= later
    requires CompletedBar(Recent(sessions, now), now).Some? && CompletedBar(Recent(sessions, later), later).Some?
    ensures CompletedBar(Recent(sessions, now), now).value <= CompletedBar(Recent(sessions, later), later).value
  {
    IntradayClockIsNewest(sessions, now);
    IntradayClockIsNewest(sessions, later);
    var start := CompletedBar(Recent(sessions, now), now).value;
    var s :| Elapsed(sessions, s, start, now);
    assert Elapsed(sessions, s, start, later);
  }

  // ---- where the two kinds of clock agree ----

  lemma {:induction false} LastWeekdayIsGreatest(date: int)
    ensures var d := LastWeekday(date);
      && Weekday(d) < 5 && date - 2 <= d <= date
      && forall other :: Weekday(other) < 5 && other <= date ==> other <= d
    decreases Weekday(date)
  {
    if Weekday(date) >= 5 {
      LastWeekdayIsGreatest(date - 1);
    }
  }

  // The weekday clock's session has closed, and no later weekday's has.
  lemma WeekdayDateIsNewest(now: int)
    ensures var d := WeekdayDate(now);
      && Weekday(d) < 5 && DateOf(now) - 3 <= d <= DateOf(now) && d * DAY + CLOSE <= now
      && forall other :: Weekday(other) < 5 && other * DAY + CLOSE <= now ==> other <= d
  {
    LastWeekdayIsGreatest(if now % DAY < CLOSE then DateOf(now) - 1 else DateOf(now));
  }

  // On any calendar the daily clocks agree exactly when the day the weekday clock names is a
  // session that has closed, and no later session has.
  lemma DailyClocksAgreeIff(sessions: seq<Session>, now: int)
    requires Calendar(sessions)
    ensures var found := CompletedSession(Recent(sessions, now), now);
      found.Some? && found.value.day == WeekdayDate(now)
      <==> && (exists s :: s in sessions && s.day == WeekdayDate(now) && s.closes <= now)
           && ClosedUpTo(sessions, WeekdayDate(now), now)
  {
    DailyClockIsNewest(sessions, now);
    WeekdayDateIsNewest(now);
  }

  // The bar the weekday clock names starts within the last three days.
  lemma WeekdayBarIsRecent(now: int)
    ensures DateOf(now) - 3 <= DateOf(WeekdayBar(now))
  {
    WeekdayDateIsNewest(now);
    LastEndedIsNewest(now - (DateOf(now) * DAY + OPEN), |BAR_ENDS|);
  }

  lemma SlotDay(sessions: seq<Session>, s: Session, start: int)
    requires Calendar(sessions) && s in sessions && IsSlot(s, start)
    ensures DateOf(start) == s.day
  {
    assert WithinDay(s);
  }

  // The 60m clocks agree exactly when the bar the weekday clock names is a slot that has elapsed,
  // and no later slot has.
  lemma IntradayClocksAgreeIff(sessions: seq<Session>, now: int)
    requires Calendar(sessions)
    ensures CompletedBar(Recent(sessions, now), now) == Some(WeekdayBar(now))
       <==> && (exists s :: Elapsed(sessions, s, WeekdayBar(now), now))
            && forall s, start :: Elapsed(sessions, s, start, now) ==> start <= WeekdayBar(now)
  {
    IntradayClockIsNewest(sessions, now);
    NewestSlotIs(sessions, CompletedBar(Recent(sessions, now), now), WeekdayBar(now), now);
  }

  lemma NewestSlotIs(sessions: seq<Session>, found: Option<int>, bar: int, now: int)
    requires Calendar(sessions) && NamesNewestSlot(found, sessions, DateOf(now) - LOOKBACK, now)
    requires bar == WeekdayBar(now)
    ensures found == Some(bar) <==> NewestElapsed(sessions, bar, now)
  {
    if NewestElapsed(sessions, bar, now) {
      var s :| Elapsed(sessions, s, bar, now);
      WeekdayBarIsRecent(now);
      SlotDay(sessions, s, bar);
      var t :| Elapsed(sessions, t, found.value, now);
    }
  }

  // So on a holiday they part: the weekday clocks name a session or a bar of a day without one.
  lemma HolidayDisagrees(sessions: seq<Session>, now: int)
    requires Calendar(sessions)
    ensures (forall s :: s in sessions ==> s.day != WeekdayDate(now)) ==>
      var found := CompletedSession(Recent(sessions, now), now); !(found.Some? && found.value.day == WeekdayDate(now))
    ensures (forall s :: s in sessions ==> s.day != DateOf(WeekdayBar(now))) ==>
      CompletedBar(Recent(sessions, now), now) != Some(WeekdayBar(now))
  {
    DailyClocksAgreeIff(sessions, now);
    IntradayClocksAgreeIff(sessions, now);
    forall s | Elapsed(sessions, s, WeekdayBar(now), now)
      ensures s.day == DateOf(WeekdayBar(now))
    {
      SlotDay(sessions, s, WeekdayBar(now));
    }
  }

  // And on an early close, from the real close until 16:00: the calendar clock names today.
  lemma EarlyCloseDisagrees(sessions: seq<Session>, s: Session, now: int)
    requires Calendar(sessions) && s in sessions && s.day == DateOf(now) && s.closes <= now && now % DAY < CLOSE
    ensures var found := CompletedSession(Recent(sessions, now), now);
      found.Some? && found.value.day == DateOf(now) && WeekdayDate(now) < DateOf(now)
  {
    DailyClockIsNewest(sessions, now);
    ClosedByNow(sessions, now);
    LastWeekdayIsGreatest(DateOf(now) - 1);
  }

  // Neither a Saturday nor a Sunday: day 0 is a Thursday.
  predicate IsWeekday(date: int) {
    date % 7 != 2 && date % 7 != 3
  }

  lemma WeekdaysAre(date: int)
    ensures IsWeekday(date) <==> Weekday(date) < 5
  {
  }

  // A session of a weekday that closes at 13:00.
  predicate ClosesAtOne(s: Session) {
    s == Session(s.day, s.day * 86400 + 34200, s.day * 86400 + 46800) && IsWeekday(s.day)
  }

  // The bar the weekday clock names on a weekday from 10:30 on: the last of the seven to have
  // ended, `since` seconds after the open.
  function NamedStart(since: int): int {
    if since < 7 * HOUR - HOUR / 2 then (since / HOUR - 1) * HOUR else LAST_BAR
  }

  lemma WeekdayBarNamed(now: int)
    requires Weekday(DateOf(now)) < 5 && now % DAY >= OPEN + HOUR
    ensures WeekdayBar(now) == DateOf(now) * DAY + OPEN + NamedStart(now % DAY - OPEN)
  {
    var since := now % DAY - OPEN;
    assert now - (DateOf(now) * DAY + OPEN) == since;
    LastEndedIsNewest(since, |BAR_ENDS|);
    assert since >= BAR_ENDS[0];
    var k :| 0 <= k < |BAR_ENDS| && LastEnded(since, |BAR_ENDS|) == Some(BAR_STARTS[k]) && since >= BAR_ENDS[k];
    assert k < 6 ==> since < BAR_ENDS[k + 1];
  }

  // The slots of such a session: 09:30, 10:30, 11:30, and 12:30 for half an hour.
  lemma SlotsToOne(s: Session, start: int)
    requires ClosesAtOne(s)
    ensures IsSlot(s, start) <==> start - s.opens in {0, HOUR, 2 * HOUR, 3 * HOUR}
    ensures IsSlot(s, start) ==> SlotEnd(s, start) == if start - s.opens == 3 * HOUR then s.closes else start + HOUR
  {
  }

  lemma SameDay(sessions: seq<Session>, s: Session, t: Session)
    requires Calendar(sessions) && s in sessions && t in sessions && s.day == t.day
    ensures s == t
  {
    var i :| 0 <= i < |sessions| && sessions[i] == s;
    var j :| 0 <= j < |sessions| && sessions[j] == t;
  }

  // Whatever has elapsed belongs to that day's session, or starts before it opens.
  lemma ElapsedThatDay(sessions: seq<Session>, s: Session, t: Session, start: int, now: int)
    requires Calendar(sessions) && s in sessions && ClosesAtOne(s) && s.day == DateOf(now)
    requires Elapsed(sessions, t, start, now)
    ensures t == s || start < s.opens
  {
    ElapsedByNow(sessions, t, start, now);
    if t.day == s.day {
      SameDay(sessions, s, t);
    } else {
      assert IsSlot(s, s.opens);
      SlotsFollowDays(sessions, t, start, s, s.opens);
    }
  }

  // From 10:30 until 13:00, and for the hour from 13:30.
  predicate BarsMatch(now: int) {
    now % DAY < 13 * HOUR || 13 * HOUR + HOUR / 2 <= now % DAY < 14 * HOUR + HOUR / 2
  }

  lemma MatchingBar(sessions: seq<Session>, s: Session, now: int)
    requires Calendar(sessions) && s in sessions && ClosesAtOne(s) && s.day == DateOf(now)
    requires now % DAY >= OPEN + HOUR && BarsMatch(now)
    ensures NewestElapsed(sessions, WeekdayBar(now), now)
  {
    WeekdaysAre(s.day);
    WeekdayBarNamed(now);
    SlotsToOne(s, WeekdayBar(now));
    assert Elapsed(sessions, s, WeekdayBar(now), now);
    forall t, start | Elapsed(sessions, t, start, now)
      ensures start <= WeekdayBar(now)
    {
      ElapsedThatDay(sessions, s, t, start, now);
      SlotsToOne(s, start);
    }
  }

  lemma ShortBarAhead(sessions: seq<Session>, s: Session, now: int)
    requires Calendar(sessions) && s in sessions && ClosesAtOne(s) && s.day == DateOf(now)
    requires 13 * HOUR <= now % DAY < 13 * HOUR + HOUR / 2
    ensures !NewestElapsed(sessions, WeekdayBar(now), now)
  {
    WeekdaysAre(s.day);
    WeekdayBarNamed(now);
    SlotsToOne(s, s.opens + 3 * HOUR);
    assert Elapsed(sessions, s, s.opens + 3 * HOUR, now);
  }

  lemma NoSuchBar(sessions: seq<Session>, s: Session, now: int)
    requires Calendar(sessions) && s in sessions && ClosesAtOne(s) && s.day == DateOf(now)
    requires now % DAY >= 14 * HOUR + HOUR / 2
    ensures !NewestElapsed(sessions, WeekdayBar(now), now)
  {
    WeekdaysAre(s.day);
    WeekdayBarNamed(now);
    SlotsToOne(s, WeekdayBar(now));
    if t :| Elapsed(sessions, t, WeekdayBar(now), now) {
      ElapsedThatDay(sessions, s, t, WeekdayBar(now), now);
    }
  }

  // On such a day the 60m clocks agree, from 10:30 on, until 13:00, when the short last bar has
  // ended but the weekday clock waits for 13:30; again from 13:30; and no more from 14:30, when it
  // names a bar that never came.
  lemma EarlyCloseBarsIff(sessions: seq<Session>, s: Session, now: int)
    requires Calendar(sessions) && s in sessions && ClosesAtOne(s) && s.day == DateOf(now)
    requires now % DAY >= OPEN + HOUR
    ensures CompletedBar(Recent(sessions, now), now) == Some(WeekdayBar(now)) <==> BarsMatch(now)
  {
    IntradayClocksAgreeIff(sessions, now);
    if BarsMatch(now) {
      MatchingBar(sessions, s, now);
    } else if now % DAY < 13 * HOUR + HOUR / 2 {
      ShortBarAhead(sessions, s, now);
    } else {
      NoSuchBar(sessions, s, now);
    }
  }

  // ---- a calendar of plain weekdays ----

  function WeekdaySession(date: int): Session {
    Session(date, date * 86400 + 34200, date * 86400 + 57600)
  }

  // Monday to Friday, 09:30-16:00, no holidays, at least over the last fortnight.
  ghost predicate PlainWeekdays(sessions: seq<Session>, now: int) {
    && Calendar(sessions)
    && (forall s :: s in sessions ==> IsWeekday(s.day) && s == WeekdaySession(s.day))
    && forall date :: now / 86400 - 14 <= date <= now / 86400 && IsWeekday(date) ==>
         WeekdaySession(date) in sessions
  }

  // The same by the clock's own weekdays.
  ghost predicate OnWeekdays(sessions: seq<Session>, now: int) {
    && Calendar(sessions)
    && (forall s :: s in sessions ==> Weekday(s.day) < 5 && s == WeekdaySession(s.day))
    && forall date :: DateOf(now) - LOOKBACK <= date <= DateOf(now) && Weekday(date) < 5 ==>
         WeekdaySession(date) in sessions
  }

  lemma PlainDays(sessions: seq<Session>, now: int)
    requires PlainWeekdays(sessions, now)
    ensures OnWeekdays(sessions, now)
  {
    forall s | s in sessions
      ensures Weekday(s.day) < 5
    {
      WeekdaysAre(s.day);
    }
    forall date | DateOf(now) - LOOKBACK <= date <= DateOf(now) && Weekday(date) < 5
      ensures WeekdaySession(date) in sessions
    {
      WeekdaysAre(date);
    }
  }

  // On such a calendar the daily clocks agree at every reference time.
  lemma DailyClocksAgree(sessions: seq<Session>, now: int)
    requires PlainWeekdays(sessions, now)
    ensures var found := CompletedSession(Recent(sessions, now), now);
      found.Some? && found.value.day == WeekdayDate(now)
  {
    PlainDays(sessions, now);
    WeekdayDateIsClosed(sessions, now);
    DailyClocksAgreeIff(sessions, now);
  }

  lemma WeekdayDateIsClosed(sessions: seq<Session>, now: int)
    requires OnWeekdays(sessions, now)
    ensures exists s :: s in sessions && s.day == WeekdayDate(now) && s.closes <= now
    ensures ClosedUpTo(sessions, WeekdayDate(now), now)
  {
    WeekdayDateIsNewest(now);
    assert WeekdaySession(WeekdayDate(now)) in sessions;
  }

  lemma {:induction false} LastEndedIsNewest(since: int, bars: nat)
    requires bars <= |BAR_ENDS|
    ensures var ended := LastEnded(since, bars);
      && (ended.Some? ==> exists k :: 0 <= k < bars && ended.value == BAR_STARTS[k] && since >= BAR_ENDS[k])
      && (forall k :: 0 <= k < bars && since >= BAR_ENDS[k] ==> ended.Some? && BAR_STARTS[k] <= ended.value)
    decreases bars
  {
    if bars > 0 {
      LastEndedIsNewest(since, bars - 1);
    }
  }

  // The slots of a plain weekday are the seven bars of the table.
  lemma WeekdaySlots(date: int, start: int)
    ensures IsSlot(WeekdaySession(date), start)
       <==> exists k :: 0 <= k < |BAR_STARTS| && start == date * DAY + OPEN + BAR_STARTS[k]
    ensures forall k :: 0 <= k < |BAR_STARTS| && start == date * DAY + OPEN + BAR_STARTS[k] ==>
      SlotEnd(WeekdaySession(date), start) == date * DAY + OPEN + BAR_ENDS[k]
  {
    var s := WeekdaySession(date);
    if IsSlot(s, start) {
      var k := (start - s.opens) / HOUR;
      assert start - s.opens == k * HOUR && 0 <= k < 7;
      assert BAR_STARTS[k] == k * HOUR;
    }
  }

  lemma WeekdayBarElapsed(sessions: seq<Session>, now: int)
    requires OnWeekdays(sessions, now)
    ensures exists s :: Elapsed(sessions, s, WeekdayBar(now), now)
  {
    var today := DateOf(now);
    var since := now - (today * DAY + OPEN);
    WeekdayDateIsNewest(now);
    LastEndedIsNewest(since, |BAR_ENDS|);
    WeekdaySlots(today, WeekdayBar(now));
    WeekdaySlots(WeekdayDate(now), WeekdayBar(now));
    if Weekday(today) < 5 && since >= 0 && LastEnded(since, |BAR_ENDS|).Some? {
      assert Elapsed(sessions, WeekdaySession(today), WeekdayBar(now), now);
    } else {
      assert BAR_STARTS[6] == LAST_BAR && BAR_ENDS[6] == CLOSE - OPEN;
      assert Elapsed(sessions, WeekdaySession(WeekdayDate(now)), WeekdayBar(now), now);
    }
  }

  lemma WeekdayBarIsNewest(now: int, date: int, start: int)
    requires Weekday(date) < 5 && IsSlot(WeekdaySession(date), start) && SlotEnd(WeekdaySession(date), start) <= now
    ensures start <= WeekdayBar(now)
  {
    var today := DateOf(now);
    var since := now - (today * DAY + OPEN);
    WeekdayDateIsNewest(now);
    LastEndedIsNewest(since, |BAR_ENDS|);
    WeekdaySlots(date, start);
    var k :| 0 <= k < |BAR_STARTS| && start == date * DAY + OPEN + BAR_STARTS[k];
    if date == today {
      assert since >= BAR_ENDS[k];
    } else {
      assert date < today;
      assert start <= date * DAY + OPEN + LAST_BAR;
    }
  }

  // On such a calendar the 60m clocks agree at every reference time.
  lemma IntradayClocksAgree(sessions: seq<Session>, now: int)
    requires PlainWeekdays(sessions, now)
    ensures CompletedBar(Recent(sessions, now), now) == Some(WeekdayBar(now))
  {
    PlainDays(sessions, now);
    WeekdayBarElapsed(sessions, now);
    NothingAfterWeekdayBar(sessions, now);
    IntradayClocksAgreeIff(sessions, now);
  }

  lemma NothingAfterWeekdayBar(sessions: seq<Session>, now: int)
    requires OnWeekdays(sessions, now)
    ensures forall s, start :: Elapsed(sessions, s, start, now) ==> start <= WeekdayBar(now)
  {
    forall s, start | Elapsed(sessions, s, start, now)
      ensures start <= WeekdayBar(now)
    {
      WeekdayBarIsNewest(now, s.day, start);
    }
  }
}
