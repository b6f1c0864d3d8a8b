// When a table is fetched again: a refresh settles it until the next session completes, however
// often it is asked for, except in three cases.
module BarFreshness {
  import opened Options
  import opened BarCache
  import opened BarBasis
  import opened BarWidth

  // What the source serves for a request that is to be fetched.
  function Fetching(bars: Bars, r: Request, answers: Answers): Fetched
    requires FetchWidth(bars, r).Some?
  {
    FetchOne(bars, r.interval, r.today, FetchWidth(bars, r).value, r.force, Cutoff(r), answers)
  }

  // A bar of the newest completed session or, for 60m, the newest completed bar or a later one.
  predicate CaughtUp(t: int, r: Request) {
    if r.interval == Daily then DateOf(t) >= r.completed else t >= r.completed
  }

  // The request is fetched for, and something is served.
  predicate Serves(bars: Bars, r: Request, answers: Answers) {
    FetchWidth(bars, r).Some? && r.usListed && r.live && Fetching(bars, r, answers).Served?
  }

  // The rows that stay under what is written: all of them when the answer is laid over the table,
  // none when it takes the table's place.
  function KeptRows(bars: Bars, r: Request, answers: Answers): Bars
    requires FetchWidth(bars, r).Some? && Fetching(bars, r, answers).Served?
  {
    var f, from := Fetching(bars, r, answers), r.today - FetchWidth(bars, r).value;
    if f.full && f.frame != map[] && !ShorterAnswerKeepsCachedHistory(bars, r.interval, f.frame, from) then map[]
    else bars
  }

  // Some bar served or kept is the newest completed one, or a later one.
  ghost predicate HasNewest(bars: Bars, r: Request, answers: Answers)
    requires FetchWidth(bars, r).Some? && Fetching(bars, r, answers).Served?
  {
    exists t :: CaughtUp(t, r) && (t in Fetching(bars, r, answers).frame || t in KeptRows(bars, r, answers))
  }

  // Some bar served or kept is dated no later than the first date needed.
  ghost predicate ReachesBack(bars: Bars, r: Request, answers: Answers)
    requires FetchWidth(bars, r).Some? && Fetching(bars, r, answers).Served?
  {
    exists t :: DateOf(t) <= NeededFrom(r) && (t in Fetching(bars, r, answers).frame || t in KeptRows(bars, r, answers))
  }

  // When the newest bar counts as final: at 16:10 of its date, early closes included.
  function FinalAt(bars: Bars, r: Request, answers: Answers): int
    requires FetchWidth(bars, r).Some? && Fetching(bars, r, answers).Served?
  {
    var kept := KeptRows(bars, r, answers);
    Midnight(if kept == map[] then r.completed else Max(r.completed, DateOf(Last(kept.Keys)))) + SETTLED
  }

  // A daily write made before then, with nothing written later left beside it.
  ghost predicate WrittenTooSoon(bars: Bars, r: Request, answers: Answers)
    requires FetchWidth(bars, r).Some? && Fetching(bars, r, answers).Served?
  {
    && r.interval == Daily && r.now < FinalAt(bars, r, answers)
    && var kept := KeptRows(bars, r, answers);
       forall t :: t in kept && t !in Fetching(bars, r, answers).frame ==> kept[t].fetchedAt < FinalAt(bars, r, answers)
  }

  lemma RefreshedIsLaid(bars: Bars, r: Request, answers: Answers)
    requires Serves(bars, r, answers)
    ensures var f, source := Fetching(bars, r, answers), if r.interval == Intraday then Fmp else Untagged;
      && f.frame != map[]
      && Refreshed(bars, r, answers) == KeptRows(bars, r, answers) + Rows(f.frame, source, r.now)
      && (forall t :: t in f.frame ==> t <= Cutoff(r))
      && (r.interval == Intraday ==> !HoldsLegacy(Refreshed(bars, r, answers)))
  {
    var f, source := Fetching(bars, r, answers), if r.interval == Intraday then Fmp else Untagged;
    assert map[] + Rows(f.frame, source, r.now) == Rows(f.frame, source, r.now);
  }

  // What is stored is what was served or kept, and the served part was written now.
  lemma StoredAfter(bars: Bars, r: Request, answers: Answers)
    requires Serves(bars, r, answers)
    ensures var after, frame := Refreshed(bars, r, answers), Fetching(bars, r, answers).frame;
      && after != map[]
      && (forall t :: t in after <==> t in frame || t in KeptRows(bars, r, answers))
      && (exists t :: t in frame)
      && (forall t :: t in frame ==> after[t].fetchedAt == r.now)
  {
    RefreshedIsLaid(bars, r, answers);
    var t := Element(Fetching(bars, r, answers).frame.Keys);
    assert t in Refreshed(bars, r, answers);
  }

  lemma StaleIffNotNewest(bars: Bars, r: Request, answers: Answers)
    requires Serves(bars, r, answers)
    ensures var after := Refreshed(bars, r, answers);
      after != map[] && (IsStale(after, r) <==> !HasNewest(bars, r, answers))
  {
    StoredAfter(bars, r, answers);
    var after := Refreshed(bars, r, answers);
    forall t | t in after
      ensures CaughtUp(t, r) ==> CaughtUp(Last(after.Keys), r)
    {
      DatesMonotone(t, Last(after.Keys));
    }
    assert Last(after.Keys) in after;
  }

  // The newest daily bar stored is the newest completed session's, or a later one that was kept.
  lemma NewestDate(bars: Bars, r: Request, answers: Answers)
    requires Serves(bars, r, answers) && HasNewest(bars, r, answers) && r.interval == Daily
    ensures var after := Refreshed(bars, r, answers);
      after != map[] && Midnight(DateOf(Last(after.Keys))) + SETTLED == FinalAt(bars, r, answers)
  {
    RefreshedIsLaid(bars, r, answers);
    StoredAfter(bars, r, answers);
    StaleIffNotNewest(bars, r, answers);
    var after, kept := Refreshed(bars, r, answers), KeptRows(bars, r, answers);
    var last := Last(after.Keys);
    assert last in after && DateOf(last) >= r.completed;
    if kept != map[] {
      assert Last(kept.Keys) in after;
      DatesMonotone(Last(kept.Keys), last);
    }
  }

  lemma ProvisionalIffTooSoon(bars: Bars, r: Request, answers: Answers)
    requires Serves(bars, r, answers) && HasNewest(bars, r, answers)
    ensures var after := Refreshed(bars, r, answers);
      after != map[] && (Provisional(after, r) <==> WrittenTooSoon(bars, r, answers))
  {
    StoredAfter(bars, r, answers);
    RefreshedIsLaid(bars, r, answers);
    if r.interval == Daily {
      StaleIffNotNewest(bars, r, answers);
      NewestDate(bars, r, answers);
    }
  }

  lemma TooNarrowIff(bars: Bars, r: Request, answers: Answers)
    requires Serves(bars, r, answers)
    ensures var after := Refreshed(bars, r, answers);
      after != map[] && (DateOf(First(after.Keys)) > NeededFrom(r) <==> !ReachesBack(bars, r, answers))
  {
    StoredAfter(bars, r, answers);
    var after := Refreshed(bars, r, answers);
    assert First(after.Keys) in after;
    forall u | u in after
      ensures DateOf(First(after.Keys)) <= DateOf(u)
    {
      DatesMonotone(First(after.Keys), u);
    }
  }

  // A refresh leaves a table that the same request would fetch again in exactly three cases: the
  // newest completed bar is neither served nor kept, nothing served or kept is as early as the
  // first date needed, or the write came before the newest bar counts as final.
  lemma RefreshSettlesIff(bars: Bars, r: Request, answers: Answers)
    requires Serves(bars, r, answers)
    ensures NeedsFetch(Refreshed(bars, r, answers), r.(force := false))
       <==> !HasNewest(bars, r, answers) || !ReachesBack(bars, r, answers) || WrittenTooSoon(bars, r, answers)
  {
    RefreshedIsLaid(bars, r, answers);
    StaleIffNotNewest(bars, r, answers);
    TooNarrowIff(bars, r, answers);
    SameFreshness(Refreshed(bars, r, answers), r);
    if HasNewest(bars, r, answers) {
      ProvisionalIffTooSoon(bars, r, answers);
    }
  }

  lemma SameFreshness(bars: Bars, r: Request)
    requires bars != map[] && (r.interval == Intraday ==> !HoldsLegacy(bars))
    ensures NeedsFetch(bars, r.(force := false))
       <==> IsStale(bars, r) || DateOf(First(bars.Keys)) > NeededFrom(r) || Provisional(bars, r)
  {
  }

  // Later requests of the same session that need no more.
  predicate NoMoreThan(later: Request, r: Request) {
    && later.interval == r.interval && later.completed == r.completed && !later.force
    && later.today >= r.today && later.lookback <= r.lookback
  }

  // Nothing left to fetch, whoever asks.
  predicate AtRest(bars: Bars, r: Request) {
    !NeedsFetch(bars, r) && (r.interval == Intraday ==> !HoldsLegacy(bars))
  }

  lemma RestIsKept(bars: Bars, r: Request, later: Request, answers: Answers)
    requires AtRest(bars, r) && NoMoreThan(later, r)
    ensures FetchWidth(bars, later) == None && Refreshed(bars, later, answers) == bars
  {
  }

  predicate AllNoMoreThan(events: seq<Event>, r: Request)
    decreases |events|
  {
    events == [] ||
    var n := |events| - 1;
    AllNoMoreThan(events[..n], r) && events[n].Refresh? && NoMoreThan(events[n].r, r)
  }

  // No request of the run is fetched for.
  predicate NothingAsked(bars: Bars, events: seq<Event>)
    decreases |events|
  {
    events == [] ||
    var n := |events| - 1;
    && NothingAsked(bars, events[..n])
    && (events[n].Refresh? ==> FetchWidth(After(bars, events[..n]), events[n].r) == None)
  }

  // So one good refresh is the last until another session completes: over any sequence of
  // requests that need no more, nothing is asked of the provider and the table stays as it is.
  lemma {:induction false} OneFetchPerSession(bars: Bars, r: Request, events: seq<Event>)
    requires AtRest(bars, r) && AllNoMoreThan(events, r)
    ensures After(bars, events) == bars && NothingAsked(bars, events)
    decreases |events|
  {
    if events != [] {
      var n := |events| - 1;
      OneFetchPerSession(bars, r, events[..n]);
      RestIsKept(bars, r, events[n].r, events[n].answers);
    }
  }

  // Together: a refresh is the last of its session, for every sequence of requests that need no
  // more, exactly when it caught up, reaches back far enough and was not written too soon.
  lemma GoodRefreshLasts(bars: Bars, r: Request, answers: Answers)
    requires Serves(bars, r, answers)
    ensures (forall events ::
               AllNoMoreThan(events, r.(force := false)) ==> NothingAsked(Refreshed(bars, r, answers), events))
       <==> HasNewest(bars, r, answers) && ReachesBack(bars, r, answers) && !WrittenTooSoon(bars, r, answers)
  {
    var after, again := Refreshed(bars, r, answers), r.(force := false);
    RefreshSettlesIff(bars, r, answers);
    RefreshedIsLaid(bars, r, answers);
    if NeedsFetch(after, again) {
      AskedOnce(after, again, answers);
    } else {
      forall events | AllNoMoreThan(events, again)
        ensures NothingAsked(after, events)
      {
        OneFetchPerSession(after, again, events);
      }
    }
  }

  lemma AskedOnce(bars: Bars, r: Request, answers: Answers)
    requires NeedsFetch(bars, r) && !r.force
    ensures exists events :: AllNoMoreThan(events, r) && !NothingAsked(bars, events)
  {
    var once := [Refresh(r, answers, 0, 0)];
    assert once[..|once| - 1] == [];
    assert NoMoreThan(r, r) && After(bars, once[..|once| - 1]) == bars && AllNoMoreThan(once[..|once| - 1], r);
    assert AllNoMoreThan(once, r) && !NothingAsked(bars, once);
  }

  // How a request for a table at hand is served: in full only when the first bar is more than ten
  // days into the window, whichever width was kept for it.
  lemma RepeatIsIncrementalIff(bars: Bars, r: Request)
    requires FetchWidth(bars, r).Some? && bars != map[] && DateOf(Last(bars.Keys)) <= r.today
    requires r.interval == Intraday ==> !HoldsLegacy(bars)
    ensures FetchesInFull(bars, r.interval, r.today, FetchWidth(bars, r).value, false)
       <==> DateOf(First(bars.Keys)) > NeededFrom(r) + FMP_COVERAGE_SLACK_DAYS
  {
    OwnWidthIsIncremental(bars, r.interval, r.today);
  }

  // ---- three ways to be flagged at once ----

  // On a day that closes at 13:00 the session counts as completed from then on, but its bar as
  // final only from 16:10: every daily refresh in between is flagged again, however many there are.
  lemma EarlyCloseIsReflagged(bars: Bars, r: Request, answers: Answers)
    requires Serves(bars, r, answers) && r.interval == Daily
    requires r.now < Midnight(r.completed) + SETTLED && forall t :: t in bars ==> bars[t].fetchedAt <= r.now
    ensures NeedsFetch(Refreshed(bars, r, answers), r.(force := false))
    ensures forall t :: t in Refreshed(bars, r, answers) ==> Refreshed(bars, r, answers)[t].fetchedAt <= r.now
  {
    RefreshSettlesIff(bars, r, answers);
    RefreshedIsLaid(bars, r, answers);
  }

  // A first request, made at `now` on a day whose session has closed, answered in full.
  function FirstRequest(today: int, lookback: nat, now: int): Request {
    Request(Daily, lookback, false, today, today, true, true, now)
  }

  lemma FirstAnswerIsServed(today: int, lookback: nat, now: int, frame: Frame)
    requires |frame| >= FMP_MIN_FULL_BARS && forall t :: t in frame ==> t <= Midnight(today)
    ensures var r, answers := FirstRequest(today, lookback, now), Answers(None, Some(frame));
      && Serves(map[], r, answers)
      && Fetching(map[], r, answers) == Served(frame, true)
      && KeptRows(map[], r, answers) == map[]
  {
    var r, answers := FirstRequest(today, lookback, now), Answers(None, Some(frame));
    assert (map t | t in frame && t <= Cutoff(r) :: frame[t]) == frame;
  }

  // The first: an answer at 13:00 of an early close, however far back it reaches.
  lemma AtOneOClock(today: int, lookback: nat, frame: Frame)
    requires |frame| >= FMP_MIN_FULL_BARS && forall t :: t in frame ==> t <= Midnight(today)
    ensures var r, answers := FirstRequest(today, lookback, Midnight(today) + 780), Answers(None, Some(frame));
      Serves(map[], r, answers) && NeedsFetch(Refreshed(map[], r, answers), r)
  {
    FirstAnswerIsServed(today, lookback, Midnight(today) + 780, frame);
    EarlyCloseIsReflagged(map[], FirstRequest(today, lookback, Midnight(today) + 780), Answers(None, Some(frame)));
  }

  // The second: a window that begins on a weekend. The fetch asks from one day before the first
  // date needed, and the first bar there is comes later than both.
  lemma WeekendStartIsReflagged(today: int, lookback: nat, now: int, frame: Frame)
    requires lookback >= 1 && |frame| >= FMP_MIN_FULL_BARS
    requires forall t :: t in frame ==> today - lookback + 2 <= DateOf(t) <= today && t <= Midnight(today)
    ensures var r, answers := FirstRequest(today, lookback, now), Answers(None, Some(frame));
      Serves(map[], r, answers) && NeedsFetch(Refreshed(map[], r, answers), r)
  {
    FirstAnswerIsServed(today, lookback, now, frame);
    RefreshSettlesIff(map[], FirstRequest(today, lookback, now), Answers(None, Some(frame)));
  }

  // The third: a halted ticker, or a provider that is behind, has no bar of the newest session.
  lemma HaltedIsReflagged(today: int, lookback: nat, now: int, frame: Frame)
    requires |frame| >= FMP_MIN_FULL_BARS && forall t :: t in frame ==> t < Midnight(today)
    ensures var r, answers := FirstRequest(today, lookback, now), Answers(None, Some(frame));
      Serves(map[], r, answers) && NeedsFetch(Refreshed(map[], r, answers), r)
  {
    FirstAnswerIsServed(today, lookback, now, frame);
    RefreshSettlesIff(map[], FirstRequest(today, lookback, now), Answers(None, Some(frame)));
  }
}
