// What one request asks for, and what it leaves in the table, stated by dates and numbers.
module BarAnswers {
  import opened Options
  import opened BarCache
  import opened BarBasis

  // ---- what is asked for ----

  // Another source's row is among them.
  ghost predicate HasForeign(bars: Bars) {
    exists t :: t in bars && bars[t].source != Fmp
  }

  // The newest bar held is older than the newest completed one, or is a daily bar of a session that
  // was not over, at 16:10, when anything held was written.
  ghost predicate Behind(bars: Bars, r: Request)
    requires bars != map[]
  {
    var last := Last(bars.Keys);
    match r.interval
    case Daily => last / 1440 < r.completed || forall t :: t in bars ==> bars[t].fetchedAt < last / 1440 * 1440 + 970
    case Intraday => last < r.completed
  }

  // A request is fetched for exactly when it is forced, or nothing is held, or what is held is
  // behind, starts after the first of the days asked for, or holds 60m rows FMP can replace.
  lemma AskedIff(bars: Bars, r: Request)
    ensures FetchWidth(bars, r).Some?
       <==> || r.force || bars == map[] || Behind(bars, r)
            || First(bars.Keys) / 1440 > r.today - (if r.lookback == 0 then 0 else r.lookback - 1)
            || (r.interval == Intraday && r.live && r.usListed && HasForeign(bars))
  {
  }

  // How wide: the days asked for, or if it is more, the widest tier that the held span comes within
  // ten days of, or a span that is too short for any.
  lemma WidthIs(bars: Bars, r: Request)
    requires FetchWidth(bars, r).Some?
    ensures bars == map[] ==> FetchWidth(bars, r) == Some(r.lookback)
    ensures bars != map[] ==>
      var span := Last(bars.Keys) / 1440 - First(bars.Keys) / 1440 + 1;
      exists kept :: KeptWidth(r.interval, span, kept)
        && FetchWidth(bars, r).value == if kept > r.lookback then kept else r.lookback
  {
    if bars != map[] {
      var span := Last(bars.Keys) / 1440 - First(bars.Keys) / 1440 + 1;
      TierIs(r.interval, span);
      assert KeptWidth(r.interval, span, PreservedLookbackDays(bars, r.interval));
    }
  }

  ghost predicate KeptWidth(i: Interval, span: int, width: int) {
    if span >= 20 then WidestTier(i, span, width) else width == span
  }

  function Tiers(i: Interval): set<int> {
    if i == Daily then {30, 90, 180, 365, 730, 1825, 3650} else {30, 90, 180, 365, 730}
  }

  ghost predicate WidestTier(i: Interval, span: int, tier: int) {
    && tier in Tiers(i) && span >= tier - 10
    && forall wider :: wider in Tiers(i) && span >= wider - 10 ==> wider <= tier
  }

  lemma TierIs(i: Interval, span: int)
    ensures span < 20 ==> TierFor(Steps(i), span) == 0
    ensures span >= 20 ==> WidestTier(i, span, TierFor(Steps(i), span))
  {
    DailyTier(span);
    IntradayTier(span);
  }

  // One step of the search from the widest tier down.
  lemma TierStep(steps: seq<int>, span: int)
    requires steps != []
    ensures TierFor(steps, span)
         == if span >= steps[|steps| - 1] - 10 then steps[|steps| - 1] else TierFor(steps[..|steps| - 1], span)
  {
  }

  lemma IntradayTier(span: int)
    ensures TierFor([30, 90, 180, 365, 730], span)
         == if span >= 720 then 730 else if span >= 355 then 365 else if span >= 170 then 180
            else if span >= 80 then 90 else if span >= 20 then 30 else 0
  {
    assert [30, 90, 180, 365, 730][..4] == [30, 90, 180, 365];
    assert [30, 90, 180, 365][..3] == [30, 90, 180] && [30, 90, 180][..2] == [30, 90] && [30, 90][..1] == [30];
    TierStep([30, 90, 180, 365, 730], span);
    TierStep([30, 90, 180, 365], span);
    TierStep([30, 90, 180], span);
    TierStep([30, 90], span);
  }

  lemma DailyTier(span: int)
    ensures TierFor([30, 90, 180, 365, 730, 1825, 3650], span)
         == if span >= 3640 then 3650 else if span >= 1815 then 1825 else TierFor([30, 90, 180, 365, 730], span)
  {
    assert [30, 90, 180, 365, 730, 1825, 3650][..6] == [30, 90, 180, 365, 730, 1825];
    assert [30, 90, 180, 365, 730, 1825][..5] == [30, 90, 180, 365, 730];
    TierStep([30, 90, 180, 365, 730, 1825, 3650], span);
    TierStep([30, 90, 180, 365, 730, 1825], span);
  }

  // ---- what is delivered ----

  // The last time a completed bar can have.
  function Newest(r: Request): int {
    if r.interval == Daily then r.completed * 1440 else r.completed
  }

  // Of an answer, the completed bars are delivered, when there are any.
  lemma DeliveredIs(r: Request, answer: Option<Frame>)
    ensures Delivered(r, answer).Some? <==> answer.Some? && exists t :: t in answer.value && t <= Newest(r)
    ensures Delivered(r, answer).Some? ==>
      && (forall t :: t in Delivered(r, answer).value <==> t in answer.value && t <= Newest(r))
      && forall t :: t in Delivered(r, answer).value ==> Delivered(r, answer).value[t] == answer.value[t]
  {
    if answer.Some? && exists t :: t in answer.value && t <= Newest(r) {
      var t :| t in answer.value && t <= Newest(r);
      assert t in (map t | t in answer.value && t <= Cutoff(r) :: answer.value[t]);
    }
  }

  // ---- what is stored ----

  // The window is wanted whole: forced, nothing held, another source's 60m rows, or a first bar more
  // than ten days into the window.
  ghost predicate WantedWhole(bars: Bars, r: Request, width: int) {
    || r.force || bars == map[] || (r.interval == Intraday && HasForeign(bars))
    || First(bars.Keys) / 1440 > r.today - (if width <= 0 then 0 else width - 1) + 10
  }

  // A top-up shows that a settled bar has moved.
  ghost predicate HasMoved(bars: Bars, r: Request, frame: Frame)
    requires bars != map[]
  {
    Deviates(bars, frame, SettledFrom(bars, r.interval), SettledTo(bars, r.interval))
  }

  // The full answer is called for: the window is wanted whole, or its top-up shows a moved bar.
  ghost predicate CallsForFull(bars: Bars, r: Request, answers: Answers)
    requires FetchWidth(bars, r).Some?
  {
    || WantedWhole(bars, r, FetchWidth(bars, r).value)
    || (Delivered(r, answers.incremental).Some? && HasMoved(bars, r, Delivered(r, answers.incremental).value))
  }

  // And is worth storing: twenty bars, or any number of daily ones where nothing is held.
  ghost predicate Ample(bars: Bars, r: Request, answers: Answers) {
    var full := Delivered(r, answers.full);
    full.Some? && (|full.value| >= 20 || (r.interval == Daily && bars == map[]))
  }

  // The request is to be fetched and its full answer is served.
  ghost predicate ServedInFull(bars: Bars, r: Request, answers: Answers) {
    && FetchWidth(bars, r).Some? && r.usListed && r.live
    && CallsForFull(bars, r, answers) && Ample(bars, r, answers)
  }

  // An answer from `first` on starts at most ten days after what is held, or after what was asked
  // for; a 60m request asks at least from the date of the oldest bar held.
  predicate ReachesFar(bars: Bars, i: Interval, first: int, requestedFrom: int)
    requires bars != map[]
  {
    || first <= First(bars.Keys) + 10 * 1440
    || (first / 1440 <= requestedFrom + 10 && (i == Daily || first / 1440 <= First(bars.Keys) / 1440 + 10))
  }

  // The grounds on which a full answer may replace what is held.
  ghost predicate MayReplace(bars: Bars, i: Interval, frame: Frame, requestedFrom: int)
    requires frame != map[]
  {
    || bars == map[]
    || ReachesFar(bars, i, First(frame.Keys), requestedFrom)
    || (i == Intraday && HasForeign(bars))
    || Deviates(bars, frame, First(frame.Keys), Last(bars.Keys))
  }

  lemma KeepsIff(bars: Bars, i: Interval, frame: Frame, requestedFrom: int)
    requires frame != map[]
    ensures ShorterAnswerKeepsCachedHistory(bars, i, frame, requestedFrom)
       <==> !MayReplace(bars, i, frame, requestedFrom)
  {
    if bars != map[] {
      MovedShows(bars, frame, First(frame.Keys), Last(bars.Keys));
    }
  }

  // The two comparisons a refresh may make.
  lemma ReplacesIff(bars: Bars, r: Request, answers: Answers)
    ensures var first, second := Delivered(r, answers.incremental), Delivered(r, answers.full);
      && (first.Some? && bars != map[] ==> Restated(bars, first.value, r.interval) == HasMoved(bars, r, first.value))
      && (second.Some? && FetchWidth(bars, r).Some? ==>
            var from := r.today - FetchWidth(bars, r).value;
            ShorterAnswerKeepsCachedHistory(bars, r.interval, second.value, from)
              == !MayReplace(bars, r.interval, second.value, from))
  {
    var first, second := Delivered(r, answers.incremental), Delivered(r, answers.full);
    if first.Some? && bars != map[] {
      RestatedIff(bars, first.value, r.interval);
    }
    if second.Some? && FetchWidth(bars, r).Some? {
      KeepsIff(bars, r.interval, second.value, r.today - FetchWidth(bars, r).value);
    }
  }

  function SourceOf(r: Request): Source {
    if r.interval == Intraday then Fmp else Untagged
  }

  // What one request leaves, in every case: nothing changes unless it is to be fetched, of a US
  // listing and while the group is on. Where the full answer is called for, an ample one takes the
  // table's place on good grounds and is laid over it otherwise; a thin or missing one changes
  // nothing. Only a top-up that shows no moved bar is laid over the table.
  lemma RefreshIs(bars: Bars, r: Request, answers: Answers)
    ensures var after := Refreshed(bars, r, answers);
      var topUp, full := Delivered(r, answers.incremental), Delivered(r, answers.full);
      if FetchWidth(bars, r).None? || !r.usListed || !r.live then after == bars
      else if CallsForFull(bars, r, answers) then
        if !Ample(bars, r, answers) then after == bars
        else if MayReplace(bars, r.interval, full.value, r.today - FetchWidth(bars, r).value) then
          after == Rows(full.value, SourceOf(r), r.now)
        else after == bars + Rows(full.value, SourceOf(r), r.now)
      else if topUp.None? then after == bars
      else after == bars + Rows(topUp.value, SourceOf(r), r.now)
  {
    ReplacesIff(bars, r, answers);
  }

  // So a restated history is never spliced: where the top-up shows a moved bar and the full answer
  // has twenty bars, that answer is stored and the top-up is not.
  lemma MovedIsRefetched(bars: Bars, r: Request, answers: Answers)
    requires bars != map[] && FetchWidth(bars, r).Some? && r.usListed && r.live
    requires Delivered(r, answers.incremental).Some? && HasMoved(bars, r, Delivered(r, answers.incremental).value)
    ensures Ample(bars, r, answers) ==>
      forall t :: t in Delivered(r, answers.full).value ==>
        t in Refreshed(bars, r, answers)
        && Refreshed(bars, r, answers)[t] == Bar(Delivered(r, answers.full).value[t], SourceOf(r), r.now)
    ensures !Ample(bars, r, answers) ==> Refreshed(bars, r, answers) == bars
    ensures forall t :: t in Refreshed(bars, r, answers) ==>
      t in bars || (Ample(bars, r, answers) && t in Delivered(r, answers.full).value)
  {
    RefreshIs(bars, r, answers);
  }

  // Of a batch, a ticker counts as served exactly when it is to be fetched, is of a US listing, the
  // group is on, and what is called for came: an ample full answer, or a top-up.
  lemma ServedIff(tables: Tables, t: string, r: Request, us: set<string>, answers: map<string, Answers>)
    requires t in answers
    ensures var bars, own := TableOf(tables, t, r.interval), r.(usListed := t in us);
      ServedAt(tables, t, r, us, answers)
      <==> && t in us && r.live && FetchWidth(bars, own).Some?
           && (if CallsForFull(bars, own, answers[t]) then Ample(bars, own, answers[t])
               else Delivered(own, answers[t].incremental).Some?)
  {
    ReplacesIff(TableOf(tables, t, r.interval), r.(usListed := t in us), answers[t]);
  }

  // A ticker's table, empty when there is none.
  function TableOf(tables: Tables, ticker: string, i: Interval): Bars {
    if (ticker, i) !in tables then map[] else tables[(ticker, i)]
  }

  lemma TableIs(tables: Tables, ticker: string, i: Interval)
    ensures At(tables, ticker, i) == TableOf(tables, ticker, i)
  {
  }

  // ---- what is given and what is kept ----

  // A caller is given exactly the bars held from the first of its days on, unchanged.
  lemma WindowIs(bars: Bars, r: Request, t: int)
    ensures t in InWindow(bars, r)
       <==> t in bars && t >= (r.today - (if r.lookback == 0 then 0 else r.lookback - 1)) * 1440
    ensures t in InWindow(bars, r) ==> InWindow(bars, r)[t] == bars[t]
  {
  }

  // A row written says what was answered, from whom and when.
  lemma RowsAre(frame: Frame, source: Source, now: int, t: int)
    ensures t in Rows(frame, source, now) <==> t in frame
    ensures t in frame ==> Rows(frame, source, now)[t] == Bar(frame[t], source, now)
  {
  }

  // A prune keeps six years of daily bars and three of 60m ones.
  lemma PrunedIs(bars: Bars, i: Interval, today: int, t: int)
    ensures t in Pruned(bars, i, today)
       <==> t in bars && t >= (today - (if i == Daily then 6 * 365 else 3 * 365)) * 1440
    ensures t in Pruned(bars, i, today) ==> Pruned(bars, i, today)[t] == bars[t]
  {
  }

  // And the bars it counts are exactly those it takes away.
  lemma ExpiredIs(tables: Tables, i: Interval, today: int, ticker: string, t: int)
    ensures (ticker, t) in Expired(tables, i, today)
       <==> && t in TableOf(tables, ticker, i)
            && t < (today - (if i == Daily then 6 * 365 else 3 * 365)) * 1440
  {
    if (ticker, t) in Expired(tables, i, today) {
      var k :| k in tables && k.1 == i && t in tables[k] && t < RetentionCutoff(i, today) && k.0 == ticker;
      assert k == (ticker, i);
    }
    if t in TableOf(tables, ticker, i) {
      assert (ticker, i).0 == ticker && (ticker, i) in tables;
    }
  }
}
