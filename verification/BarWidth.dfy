// How wide the cache asks: a row is refetched at the width it was fetched at, and nightly
// growth never ratchets that width up to the next tier.
module BarWidth {
  import opened Options
  import opened BarCache
  import opened BarBasis

  // ---- tiers ----

  lemma {:induction false} TierReached(steps: seq<int>, span: int)
    ensures var tier := TierFor(steps, span);
      tier == 0 || (tier in steps && span >= tier - TIER_SLACK_DAYS)
    decreases |steps|
  {
    if steps != [] {
      TierReached(steps[..|steps| - 1], span);
    }
  }

  lemma {:induction false} NoTierMeansShort(steps: seq<int>, span: int)
    requires forall k :: 0 <= k < |steps| ==> steps[k] > 0
    requires TierFor(steps, span) == 0
    ensures forall k :: 0 <= k < |steps| ==> span < steps[k] - TIER_SLACK_DAYS
    decreases |steps|
  {
    if steps != [] {
      NoTierMeansShort(steps[..|steps| - 1], span);
    }
  }

  // A daily span short of the ten-year tier is preserved at five years at most.
  lemma TierBelowTenYears(span: int)
    requires span < 3650 - TIER_SLACK_DAYS
    ensures TierFor(DAILY_STEPS, span) <= 1825
  {
    TierReached(DAILY_STEPS, span);
  }

  lemma TenYearTier(span: int)
    requires span >= 3650 - TIER_SLACK_DAYS
    ensures TierFor(DAILY_STEPS, span) == 3650
  {
  }

  lemma DatesMonotone(a: int, b: int)
    requires a <= b
    ensures DateOf(a) <= DateOf(b)
  {
  }

  // Refetching a row at its own preserved width always takes the incremental branch, whatever
  // the row holds and however many bars have piled up -- unless legacy rows force a replacement.
  lemma OwnWidthIsIncremental(bars: Bars, i: Interval, today: int)
    requires bars != map[] && DateOf(Last(bars.Keys)) <= today
    ensures FetchesInFull(bars, i, today, PreservedLookbackDays(bars, i), false) <==> i == Intraday && HoldsLegacy(bars)
  {
    DatesMonotone(First(bars.Keys), Last(bars.Keys));
    var span := DateOf(Last(bars.Keys)) - DateOf(First(bars.Keys)) + 1;
    TierReached(Steps(i), span);
  }

  // ---- narrower requests ----

  predicate Ascending(steps: seq<int>) {
    forall j, k :: 0 <= j < k < |steps| ==> steps[j] < steps[k]
  }

  lemma {:induction false} TierMonotone(steps: seq<int>, a: int, b: int)
    requires a <= b && Ascending(steps) && forall k :: 0 <= k < |steps| ==> steps[k] > 0
    ensures TierFor(steps, a) <= TierFor(steps, b)
    decreases |steps|
  {
    if steps != [] {
      TierMonotone(steps[..|steps| - 1], a, b);
      TierReached(steps[..|steps| - 1], a);
    }
  }

  function Span(bars: Bars): int
    requires bars != map[]
  {
    DateOf(Last(bars.Keys)) - DateOf(First(bars.Keys)) + 1
  }

  // A table that only gains bars is preserved at no smaller a width.
  lemma PreservedGrows(bars: Bars, after: Bars, i: Interval)
    requires bars != map[] && bars.Keys <= after.Keys
    ensures after != map[] && PreservedLookbackDays(bars, i) <= PreservedLookbackDays(after, i)
  {
    assert Last(bars.Keys) in after && First(bars.Keys) in after;
    DatesMonotone(Last(bars.Keys), Last(after.Keys));
    DatesMonotone(First(after.Keys), First(bars.Keys));
    WidthOfSpan(Steps(i), Span(bars), Span(after));
  }

  lemma WidthOfSpan(steps: seq<int>, a: int, b: int)
    requires a <= b && (steps == DAILY_STEPS || steps == INTRADAY_STEPS)
    ensures (if TierFor(steps, a) != 0 then TierFor(steps, a) else a)
         <= (if TierFor(steps, b) != 0 then TierFor(steps, b) else b)
  {
    TierMonotone(steps, a, b);
    TierReached(steps, a);
    TierReached(steps, b);
    assert forall tier :: tier in steps ==> tier >= 30;
    if TierFor(steps, a) == 0 {
      NoTierMeansShort(steps, a);
      assert a < steps[0] - TIER_SLACK_DAYS;
    }
  }

  // An unforced request for no more than the row is kept at, on a day not before its last bar.
  predicate Narrower(bars: Bars, i: Interval, width: int, r: Request) {
    && r.interval == i && !r.force && r.lookback <= width && DateOf(Cutoff(r)) <= r.today
    && (bars != map[] ==> DateOf(Last(bars.Keys)) <= r.today)
  }

  // The overlap of its answer agrees with the table.
  ghost predicate Agrees(bars: Bars, r: Request, answers: Answers) {
    var first := Delivered(r, answers.incremental);
    bars != map[] && first.Some? ==> !Restated(bars, first.value, r.interval)
  }

  lemma NarrowerGrows(bars: Bars, i: Interval, r: Request, answers: Answers)
    requires bars != map[] && (i == Intraday ==> !HoldsLegacy(bars))
    requires Narrower(bars, i, PreservedLookbackDays(bars, i), r) && Agrees(bars, r, answers)
    ensures bars.Keys <= Refreshed(bars, r, answers).Keys
  {
    OwnWidthIsIncremental(bars, i, r.today);
    var width := FetchWidth(bars, r);
    if width.Some? && r.usListed && r.live {
      assert width.value == PreservedLookbackDays(bars, i);
      var fetched := FetchOne(bars, i, r.today, width.value, r.force, Cutoff(r), answers);
      assert fetched.Served? ==> !fetched.full;
    }
  }

  // Unforced requests for no more than the row was kept at, on days that do not run backwards,
  // each answered in agreement with what is held.
  ghost predicate NarrowRun(bars: Bars, i: Interval, events: seq<Event>)
    decreases |events|
  {
    events == [] ||
    var n := |events| - 1;
    var before := After(bars, events[..n]);
    && NarrowRun(bars, i, events[..n])
    && events[n].Refresh?
    && Narrower(before, i, PreservedLookbackDays(bars, i), events[n].r)
    && Agrees(before, events[n].r, events[n].answers)
  }

  // Refetches for narrower consumers never shrink a row: along any such run, unless an overlap
  // shows a restatement, no bar is lost and the width asked for never falls below the width the
  // row was kept at.
  lemma {:induction false} WidthNeverNarrows(bars: Bars, i: Interval, events: seq<Event>, r: Request)
    requires bars != map[] && (i == Intraday ==> !HoldsLegacy(bars)) && NarrowRun(bars, i, events)
    ensures var after := After(bars, events);
      && bars.Keys <= after.Keys && (i == Intraday ==> !HoldsLegacy(after))
      && PreservedLookbackDays(bars, i) <= PreservedLookbackDays(after, i)
      && (r.interval == i && FetchWidth(after, r).Some? ==>
            FetchWidth(after, r).value >= PreservedLookbackDays(bars, i))
    decreases |events|
  {
    if events != [] {
      var n := |events| - 1;
      WidthNeverNarrows(bars, i, events[..n], r);
      var before, e := After(bars, events[..n]), events[n];
      Widened(bars, before, i, e.r, e.answers);
    } else {
      PreservedGrows(bars, bars, i);
    }
  }

  lemma Widened(bars: Bars, before: Bars, i: Interval, r: Request, answers: Answers)
    requires bars != map[] && bars.Keys <= before.Keys && (i == Intraday ==> !HoldsLegacy(before))
    requires Narrower(before, i, PreservedLookbackDays(bars, i), r) && Agrees(before, r, answers)
    ensures var after := Refreshed(before, r, answers);
      && bars.Keys <= after.Keys && (i == Intraday ==> !HoldsLegacy(after))
      && PreservedLookbackDays(bars, i) <= PreservedLookbackDays(after, i)
  {
    var t := Element(bars.Keys);
    assert t in before;
    PreservedGrows(bars, before, i);
    NarrowerGrows(before, i, r, answers);
    PreservedGrows(bars, Refreshed(before, r, answers), i);
    if i == Intraday {
      IntradayRowsAreFmp(before, r, answers);
    }
  }

  // ---- runs of daily refreshes and prunes ----

  // The provider answers within the dates it was asked for.
  ghost predicate WithinRequest(bars: Bars, r: Request, answers: Answers) {
    var first, second := Delivered(r, answers.incremental), Delivered(r, answers.full);
    && (first.Some? && bars != map[] ==> forall t :: t in first.value ==>
          DateOf(Last(bars.Keys)) - FMP_OVERLAP_DAYS <= DateOf(t) <= r.today)
    && (second.Some? && FetchWidth(bars, r).Some? ==> forall t :: t in second.value ==>
          r.today - FetchWidth(bars, r).value <= DateOf(t) <= r.today)
  }

  // The day of the last prune, `start` standing for one before the run.
  function LastPrune(start: int, events: seq<Event>): int
    decreases |events|
  {
    if events == [] then start
    else
      var e := events[|events| - 1];
      if e.Prune? then e.today else LastPrune(start, events[..|events| - 1])
  }

  function Today(e: Event): int {
    if e.Refresh? then e.r.today else e.today
  }

  // Daily requests for at most five years, answered within what they ask, on advancing days,
  // none of them `gap` days or more after the prune before it.
  ghost predicate SteadyRun(bars: Bars, start: int, events: seq<Event>, gap: int) {
    && (forall k :: 0 <= k < |events| ==> start <= Today(events[k]))
    && (forall j, k :: 0 <= j < k < |events| ==> Today(events[j]) <= Today(events[k]))
    && (forall k :: 0 <= k < |events| && events[k].Prune? ==> events[k].interval == Daily)
    && forall k :: 0 <= k < |events| && events[k].Refresh? ==>
      && events[k].r.interval == Daily && events[k].r.lookback <= 1825
      && WithinRequest(After(bars, events[..k]), events[k].r, events[k].answers)
      && events[k].r.today - LastPrune(start, events[..k]) < gap
  }

  // Nothing reaches further back than retention plus one overlap before the last prune, and the
  // newest bar no further than retention.
  ghost predicate Kept(bars: Bars, pruned: int, today: int) {
    && (forall t :: t in bars ==> pruned - DAILY_RETENTION - FMP_OVERLAP_DAYS <= DateOf(t) <= today)
    && (bars != map[] ==> pruned - DAILY_RETENTION <= DateOf(Last(bars.Keys)))
  }

  lemma KeptWidth(bars: Bars, r: Request, pruned: int, today: int)
    requires Kept(bars, pruned, today) && today <= r.today && r.today - pruned < 1442
    requires r.interval == Daily && r.lookback <= 1825
    ensures FetchWidth(bars, r).Some? ==> FetchWidth(bars, r).value <= 1825
  {
    if bars != map[] {
      var span := DateOf(Last(bars.Keys)) - DateOf(First(bars.Keys)) + 1;
      TierBelowTenYears(span);
      if TierFor(DAILY_STEPS, span) == 0 {
        NoTierMeansShort(DAILY_STEPS, span);
        assert span < DAILY_STEPS[0];
      }
    }
  }

  lemma LastOfUpsert(bars: Bars, frame: Frame, source: Source, now: int)
    requires bars != map[]
    ensures var after := bars + Rows(frame, source, now);
      after != map[] && Last(bars.Keys) <= Last(after.Keys)
  {
    var after := bars + Rows(frame, source, now);
    assert Last(bars.Keys) in after;
  }

  lemma KeptUpsert(bars: Bars, frame: Frame, source: Source, now: int, pruned: int, today: int, low: int)
    requires bars != map[] && Kept(bars, pruned, today) && low >= pruned - DAILY_RETENTION - FMP_OVERLAP_DAYS
    requires forall t :: t in frame ==> low <= DateOf(t) <= today
    ensures Kept(bars + Rows(frame, source, now), pruned, today)
  {
    LastOfUpsert(bars, frame, source, now);
    DatesMonotone(Last(bars.Keys), Last((bars + Rows(frame, source, now)).Keys));
  }

  lemma KeptReplace(frame: Frame, source: Source, now: int, pruned: int, today: int)
    requires forall t :: t in frame ==> pruned - DAILY_RETENTION <= DateOf(t) <= today
    ensures Kept(Rows(frame, source, now), pruned, today)
  {
    var rows := Rows(frame, source, now);
    if rows != map[] {
      assert Last(rows.Keys) in rows;
    }
  }

  lemma ServedWithin(bars: Bars, r: Request, answers: Answers, width: int)
    requires FetchWidth(bars, r) == Some(width) && WithinRequest(bars, r, answers)
    ensures var f := FetchOne(bars, r.interval, r.today, width, r.force, Cutoff(r), answers);
      && (f.Served? && f.full ==> forall t :: t in f.frame ==> r.today - width <= DateOf(t) <= r.today)
      && (f.Served? && !f.full ==> bars != map[] && forall t :: t in f.frame ==>
            DateOf(Last(bars.Keys)) - FMP_OVERLAP_DAYS <= DateOf(t) <= r.today)
  {
  }

  lemma KeptRefresh(bars: Bars, r: Request, answers: Answers, pruned: int, today: int)
    requires Kept(bars, pruned, today) && today <= r.today && pruned <= r.today && r.today - pruned < 1442
    requires r.interval == Daily && r.lookback <= 1825 && WithinRequest(bars, r, answers)
    ensures Kept(Refreshed(bars, r, answers), pruned, r.today)
  {
    KeptWidth(bars, r, pruned, today);
    var width := FetchWidth(bars, r);
    if width.Some? && r.usListed && r.live {
      var fetched := FetchOne(bars, Daily, r.today, width.value, r.force, Cutoff(r), answers);
      ServedWithin(bars, r, answers, width.value);
      if fetched.Served? {
        KeptReplaceOrUpsert(bars, r, fetched.frame, fetched.full, pruned, today);
      }
    }
  }

  lemma KeptReplaceOrUpsert(bars: Bars, r: Request, frame: Frame, full: bool, pruned: int, today: int)
    requires Kept(bars, pruned, today) && today <= r.today && r.interval == Daily
    requires FetchWidth(bars, r).Some?
    requires full ==> forall t :: t in frame ==> pruned - DAILY_RETENTION <= DateOf(t) <= r.today
    requires !full ==> bars != map[] && forall t :: t in frame ==>
      DateOf(Last(bars.Keys)) - FMP_OVERLAP_DAYS <= DateOf(t) <= r.today
    ensures Kept(Written(bars, Daily, frame, full, Untagged, r.now, Some(r.today - FetchWidth(bars, r).value)),
                 pruned, r.today)
  {
    if full {
      KeptReplace(frame, Untagged, r.now, pruned, r.today);
      if bars != map[] {
        KeptUpsert(bars, frame, Untagged, r.now, pruned, r.today, pruned - DAILY_RETENTION);
      } else {
        assert bars + Rows(frame, Untagged, r.now) == Rows(frame, Untagged, r.now);
      }
    } else {
      KeptUpsert(bars, frame, Untagged, r.now, pruned, r.today, DateOf(Last(bars.Keys)) - FMP_OVERLAP_DAYS);
    }
  }

  lemma KeptPrune(bars: Bars, pruned: int, today: int, day: int)
    requires Kept(bars, pruned, today) && today <= day
    ensures Kept(Pruned(bars, Daily, day), day, day)
  {
    var left := Pruned(bars, Daily, day);
    if left != map[] {
      assert Last(left.Keys) in left;
    }
  }

  lemma {:induction false} RunKeeps(bars: Bars, start: int, events: seq<Event>)
    requires Kept(bars, start, start) && SteadyRun(bars, start, events, 1442)
    ensures start <= LastPrune(start, events)
    ensures Kept(After(bars, events), LastPrune(start, events),
                 if events == [] then start else Today(events[|events| - 1]))
    ensures events != [] ==> LastPrune(start, events) <= Today(events[|events| - 1])
    decreases |events|
  {
    if events != [] {
      var n := |events| - 1;
      assert forall k :: 0 <= k < n ==> events[..n][..k] == events[..k];
      RunKeeps(bars, start, events[..n]);
      var before, pruned := After(bars, events[..n]), LastPrune(start, events[..n]);
      var today := if n == 0 then start else Today(events[n - 1]);
      if events[n].Refresh? {
        KeptRefresh(before, events[n].r, events[n].answers, pruned, today);
      } else {
        KeptPrune(before, pruned, today, events[n].today);
      }
    }
  }

  // A daily request for at most five years that comes after such a run, within `gap` of its last prune.
  ghost predicate SteadyRequest(bars: Bars, start: int, events: seq<Event>, gap: int, r: Request) {
    && Kept(bars, start, start) && SteadyRun(bars, start, events, gap)
    && r.interval == Daily && r.lookback <= 1825 && start <= r.today
    && (events != [] ==> Today(events[|events| - 1]) <= r.today)
    && r.today - LastPrune(start, events) < gap
  }

  ghost predicate WithinFiveYears(bars: Bars, r: Request) {
    var width := FetchWidth(bars, r);
    width.Some? ==> width.value <= 1825
  }

  // No width ratchet: from an empty table (or one just pruned), over any run of requests for at
  // most five years whose prunes keep less than 1442 days ahead of them, no request ever asks
  // for more than the five-year tier, although the stored span grows with every night.
  lemma WidthNeverRatchets(bars: Bars, start: int, events: seq<Event>, r: Request)
    requires SteadyRequest(bars, start, events, 1442, r)
    ensures WithinFiveYears(After(bars, events), r)
  {
    RunKeeps(bars, start, events);
    KeptWidth(After(bars, events), r, LastPrune(start, events),
              if events == [] then start else Today(events[|events| - 1]));
  }

  // ---- the bound is exact ----

  function Morning(date: int, force: bool): Request {
    Request(Daily, 30, force, date, date, true, true, Midnight(date))
  }

  function FlatFrame(dates: set<int>): Frame {
    map d | d in dates :: Midnight(d) := Quote(1.0, 0)
  }

  // A morning on which the provider answers the incremental request with the given dates.
  function Answered(date: int, force: bool, dates: set<int>): Event {
    Refresh(Morning(date, force), Answers(Some(FlatFrame(dates)), None), 0, 0)
  }

  // The dates a flat table holds.
  ghost predicate Holds(bars: Bars, dates: set<int>) {
    forall t :: t in bars <==> t % DAY == 0 && DateOf(t) in dates
  }

  ghost predicate Flat(bars: Bars) {
    forall t :: t in bars ==> bars[t].quote == Quote(1.0, 0)
  }

  lemma SpanOf(bars: Bars, dates: set<int>, a: int, b: int)
    requires Holds(bars, dates) && a in dates && b in dates && forall d :: d in dates ==> a <= d <= b
    ensures bars != map[] && First(bars.Keys) == Midnight(a) && Last(bars.Keys) == Midnight(b)
    ensures DateOf(Midnight(a)) == a && DateOf(Midnight(b)) == b
  {
    assert Midnight(a) in bars && Midnight(b) in bars;
    assert First(bars.Keys) in bars && Last(bars.Keys) in bars;
  }

  lemma FlatDelivered(r: Request, dates: set<int>)
    requires r.interval == Daily && dates != {} && forall d :: d in dates ==> d <= r.completed
    ensures Delivered(r, Some(FlatFrame(dates))) == Some(FlatFrame(dates))
  {
    var d := Element(dates);
    assert Midnight(d) in FlatFrame(dates);
    assert (map t | t in FlatFrame(dates) && t <= Cutoff(r) :: FlatFrame(dates)[t]) == FlatFrame(dates);
  }

  lemma FlatNeverRestated(bars: Bars, frame: Frame, lo: int, hi: int)
    requires Flat(bars) && forall t :: t in frame ==> frame[t] == Quote(1.0, 0)
    ensures !Disagrees(bars, frame, lo, hi)
  {
  }

  // A morning on which the newest bar is behind asks for its thirty days, incrementally.
  lemma MorningAsksIncrementally(bars: Bars, held: set<int>, date: int, a: int, b: int)
    requires Holds(bars, held) && a in held && b in held && forall d :: d in held ==> a <= d <= b
    requires b < date && a <= date - 19 && b - a < 19
    ensures FetchWidth(bars, Morning(date, false)) == Some(30)
    ensures bars != map[] && !FetchesInFull(bars, Daily, date, 30, false) && DateOf(Last(bars.Keys)) == b
  {
    SpanOf(bars, held, a, b);
    TierReached(DAILY_STEPS, b - a + 1);
  }

  // A morning's top-up of a flat table that is behind: the dates simply add up.
  lemma FlatTopUp(bars: Bars, held: set<int>, date: int, dates: set<int>, a: int, b: int)
    requires Holds(bars, held) && Flat(bars) && a in held && b in held && forall d :: d in held ==> a <= d <= b
    requires b < date && a <= date - 19 && b - a < 19
    requires dates != {} && forall d :: d in dates ==> b - FMP_OVERLAP_DAYS <= d <= date
    ensures var e := Answered(date, false, dates);
      && WithinRequest(bars, e.r, e.answers)
      && Holds(Applied(bars, e), held + dates) && Flat(Applied(bars, e))
  {
    var e, frame := Answered(date, false, dates), FlatFrame(dates);
    MorningAsksIncrementally(bars, held, date, a, b);
    FlatDelivered(e.r, dates);
    FlatNeverRestated(bars, frame, SettledFrom(bars, Daily), SettledTo(bars, Daily));
    assert FetchOne(bars, Daily, date, 30, false, Cutoff(e.r), e.answers) == Served(frame, false);
    FlatUpsert(bars, held, dates, e.r.now);
  }

  lemma FlatUpsert(bars: Bars, held: set<int>, dates: set<int>, now: int)
    requires Holds(bars, held) && Flat(bars)
    ensures var after := Written(bars, Daily, FlatFrame(dates), false, Untagged, now, None);
      Holds(after, held + dates) && Flat(after)
    ensures forall from: Option<int> {:trigger Written(bars, Daily, FlatFrame(dates), false, Untagged, now, from)} ::
      Written(bars, Daily, FlatFrame(dates), false, Untagged, now, from)
      == Written(bars, Daily, FlatFrame(dates), false, Untagged, now, None)
  {
    assert forall t :: t in FlatFrame(dates) <==> t % DAY == 0 && DateOf(t) in dates by {
      forall t | t % DAY == 0 && DateOf(t) in dates
        ensures t in FlatFrame(dates)
      {
        assert t == Midnight(DateOf(t));
      }
    }
  }

  lemma LoneBarKept(p: int, bars: Bars)
    requires Holds(bars, {p - DAILY_RETENTION})
    ensures Kept(bars, p, p)
  {
    SpanOf(bars, {p - DAILY_RETENTION}, p - DAILY_RETENTION, p - DAILY_RETENTION);
  }

  ghost predicate BothWithinRequest(bars: Bars, first: Event, second: Event) {
    && first.Refresh? && second.Refresh?
    && WithinRequest(bars, first.r, first.answers)
    && WithinRequest(Applied(bars, first), second.r, second.answers)
  }

  // A bar a week before the lone one, and one 1442 days after the prune.
  lemma ThinYearsHold(p: int, bars: Bars)
    requires Holds(bars, {p - DAILY_RETENTION}) && Flat(bars)
    ensures BothWithinRequest(bars, ThinYears(p)[0], ThinYears(p)[1])
    ensures Holds(Applied(Applied(bars, ThinYears(p)[0]), ThinYears(p)[1]),
                  {p - DAILY_RETENTION} + {p - DAILY_RETENTION - 7} + {p + 1442})
  {
    var oldest := p - DAILY_RETENTION;
    FlatTopUp(bars, {oldest}, p, {oldest - 7}, oldest, oldest);
    FlatTopUp(Applied(bars, ThinYears(p)[0]), {oldest} + {oldest - 7}, p + 1442, {p + 1442}, oldest - 7, oldest);
  }

  lemma ThinYearsSteady(p: int, bars: Bars)
    requires BothWithinRequest(bars, ThinYears(p)[0], ThinYears(p)[1])
    ensures SteadyRun(bars, p, ThinYears(p), 1443)
    ensures After(bars, ThinYears(p)) == Applied(Applied(bars, ThinYears(p)[0]), ThinYears(p)[1])
  {
    TwoEvents(bars, p, ThinYears(p)[0], ThinYears(p)[1]);
  }

  // With 1442 days since the prune the width can jump to ten years: a lone bar at the retention
  // limit is topped up from a week before it, and a resync 1442 days on finds 3640 days stored.
  lemma RatchetsAt1442(p: int, bars: Bars)
    requires Holds(bars, {p - DAILY_RETENTION}) && Flat(bars)
    ensures Kept(bars, p, p) && SteadyRun(bars, p, ThinYears(p), 1443)
    ensures FetchWidth(After(bars, ThinYears(p)), Morning(p + 1442, true)) == Some(3650)
  {
    LoneBarKept(p, bars);
    ThinYearsHold(p, bars);
    ThinYearsSteady(p, bars);
    WideSpan(After(bars, ThinYears(p)), {p - DAILY_RETENTION} + {p - DAILY_RETENTION - 7} + {p + 1442}, p);
  }

  // The distance between prunes decides: at less than `gap` days no width ever ratchets exactly
  // when `gap` is at most 1442.
  lemma RatchetsIff(gap: int)
    ensures (forall bars, start, events, r :: SteadyRequest(bars, start, events, gap, r) ==>
               WithinFiveYears(After(bars, events), r))
       <==> gap <= 1442
  {
    if gap <= 1442 {
      forall bars, start, events, r | SteadyRequest(bars, start, events, gap, r)
        ensures WithinFiveYears(After(bars, events), r)
      {
        WidthNeverRatchets(bars, start, events, r);
      }
    } else {
      var bars: Bars := map[Midnight(-DAILY_RETENTION) := Bar(Quote(1.0, 0), Untagged, 0)];
      RatchetsAt1442(0, bars);
      assert SteadyRequest(bars, 0, ThinYears(0), gap, Morning(1442, true)) by {
        LastOfThinYears();
      }
      assert !WithinFiveYears(After(bars, ThinYears(0)), Morning(1442, true));
    }
  }

  lemma LastOfThinYears()
    ensures LastPrune(0, ThinYears(0)) == 0
  {
    assert ThinYears(0)[..1][..0] == [];
  }

  function ThinYears(p: int): seq<Event> {
    [Answered(p, false, {p - DAILY_RETENTION - 7}), Answered(p + 1442, false, {p + 1442})]
  }

  lemma WideSpan(bars: Bars, dates: set<int>, p: int)
    requires Holds(bars, dates) && dates == {p - DAILY_RETENTION, p - DAILY_RETENTION - 7, p + 1442}
    ensures FetchWidth(bars, Morning(p + 1442, true)) == Some(3650)
  {
    SpanOf(bars, dates, p - DAILY_RETENTION - 7, p + 1442);
    TenYearTier(3640);
  }

  lemma TwoEvents(bars: Bars, p: int, e1: Event, e2: Event)
    requires e1.Refresh? && e2.Refresh?
    ensures var events := [e1, e2];
      && events[..0] == [] && events[..1] == [e1]
      && After(bars, events[..0]) == bars && After(bars, events[..1]) == Applied(bars, e1)
      && After(bars, events) == Applied(Applied(bars, e1), e2)
      && LastPrune(p, events[..0]) == p && LastPrune(p, events[..1]) == p
  {
    assert [e1][..0] == [];
    assert [e1, e2][..1] == [e1];
  }
}
