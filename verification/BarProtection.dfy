// What a refresh may drop, and how far the history protection of the bar cache reaches.
module BarProtection {
  import opened Options
  import opened BarCache
  import opened BarBasis
  import opened BarAnswers

  // ---- what a refresh may drop ----

  // A refresh leaves the table alone, lays the answer over it, or -- only for a full answer of at
  // least twenty bars (or onto nothing) that reaches back far enough, disagrees with what is
  // held, or meets legacy rows -- replaces it. Only the last can lose a stored bar.
  lemma RefreshConserves(bars: Bars, r: Request, answers: Answers)
    ensures var after := Refreshed(bars, r, answers);
      var source := if r.interval == Intraday then Fmp else Untagged;
      var first, second := Delivered(r, answers.incremental), Delivered(r, answers.full);
      || after == bars
      || (first.Some? && bars != map[] && after == bars + Rows(first.value, source, r.now)
          && !Deviates(bars, first.value, SettledFrom(bars, r.interval), SettledTo(bars, r.interval)))
      || (second.Some? && after == bars + Rows(second.value, source, r.now)
          && !MayReplace(bars, r.interval, second.value, r.today - FetchWidth(bars, r).value))
      || (second.Some? && after == Rows(second.value, source, r.now)
          && MayReplace(bars, r.interval, second.value, r.today - FetchWidth(bars, r).value)
          && (bars == map[] || |second.value| >= 20))
  {
    ReplacesIff(bars, r, answers);
  }

  // The event drops the bar at t: a prune that reaches it, or a full answer without it that may
  // take the table's place.
  ghost predicate Drops(bars: Bars, e: Event, t: int) {
    match e
    case Prune(i, today) => t < (today - (if i == Daily then 6 * 365 else 3 * 365)) * 1440
    case Refresh(r, answers, _, _) =>
      && ServedInFull(bars, r, answers) && t !in Delivered(r, answers.full).value
      && MayReplace(bars, r.interval, Delivered(r, answers.full).value, r.today - FetchWidth(bars, r).value)
  }

  lemma DroppedIff(bars: Bars, e: Event, t: int)
    requires t in bars
    ensures t !in Applied(bars, e) <==> Drops(bars, e, t)
  {
    if e.Refresh? {
      DroppedByRefresh(bars, e.r, e.answers, t);
    }
  }

  lemma DroppedByRefresh(bars: Bars, r: Request, answers: Answers, t: int)
    requires t in bars
    ensures t !in Refreshed(bars, r, answers)
       <==> && ServedInFull(bars, r, answers) && t !in Delivered(r, answers.full).value
            && MayReplace(bars, r.interval, Delivered(r, answers.full).value, r.today - FetchWidth(bars, r).value)
  {
    RefreshIs(bars, r, answers);
  }

  // The k-th event of a run found the bar at t stored, and dropped it.
  ghost predicate DroppedAt(bars: Bars, events: seq<Event>, k: nat, t: int)
    requires k < |events|
  {
    t in After(bars, events[..k]) && Drops(After(bars, events[..k]), events[k], t)
  }

  // A stored bar is lost only so: along any run of refreshes and prunes, a bar that is gone was
  // dropped by a prune or by a full answer with grounds to replace what was held at that moment.
  lemma {:induction false} LostOnlyWhenDropped(bars: Bars, events: seq<Event>, t: int)
    requires t in bars && t !in After(bars, events)
    ensures exists k :: 0 <= k < |events| && DroppedAt(bars, events, k, t)
    decreases |events|
  {
    var n := |events| - 1;
    if t in After(bars, events[..n]) {
      DroppedIff(After(bars, events[..n]), events[n], t);
      assert DroppedAt(bars, events, n, t);
    } else {
      LostOnlyWhenDropped(bars, events[..n], t);
      var k :| 0 <= k < n && DroppedAt(bars, events[..n], k, t);
      assert events[..n][..k] == events[..k];
      assert DroppedAt(bars, events, k, t);
    }
  }

  // ---- history protection ----

  // A full answer that starts well after what is held and after what was asked for, as a clamped
  // plan gives, and that agrees with every settled bar held.
  ghost predicate Clamped(bars: Bars, i: Interval, frame: Frame, requestedFrom: int)
    requires frame != map[]
  {
    && bars != map[] && !ReachesFar(bars, i, First(frame.Keys), requestedFrom)
    && !(i == Intraday && HasForeign(bars))
    && !Deviates(bars, frame, First(frame.Keys), SettledTo(bars, i))
  }

  // Such an answer shortens the history exactly when some bar of the newest session but the very
  // last disagrees. The refetch decision exempts that whole session for 60m bars, whose closes FMP
  // corrects the next night; the write does not.
  lemma ClampKeepsHistoryIff(bars: Bars, i: Interval, frame: Frame, source: Source, now: int, requestedFrom: int)
    requires frame != map[] && Clamped(bars, i, frame, requestedFrom)
    ensures bars.Keys <= Written(bars, i, frame, true, source, now, Some(requestedFrom)).Keys
       <==> !Deviates(bars, frame, Max(First(frame.Keys), SettledTo(bars, i)), Last(bars.Keys))
  {
    assert First(bars.Keys) in bars && First(bars.Keys) !in frame;
    var lo, mid, hi := First(frame.Keys), SettledTo(bars, i), Last(bars.Keys);
    assert Deviates(bars, frame, lo, hi) <==> Deviates(bars, frame, Max(lo, mid), hi) by {
      SplitOverlap(bars, frame, lo, mid, hi);
    }
    KeepsIff(bars, i, frame, requestedFrom);
  }

  lemma SplitOverlap(bars: Bars, frame: Frame, lo: int, mid: int, hi: int)
    requires mid <= hi && !Deviates(bars, frame, lo, mid)
    ensures Deviates(bars, frame, lo, hi) <==> Deviates(bars, frame, Max(lo, mid), hi)
  {
    if Deviates(bars, frame, lo, hi) {
      var t :| t in frame && t in bars && lo <= t < hi && bars[t].quote.close != 0.0
        && Moved(frame[t].close, bars[t].quote.close);
      assert !(lo <= t < mid);
    }
  }

  // The same of a whole request: a clamped answer of at least twenty bars, served in full, shortens
  // the table exactly when the newest session disagrees before its last bar, and then nothing but
  // the answer is left.
  lemma FullClampKeepsHistoryIff(bars: Bars, r: Request, answers: Answers)
    requires ServedInFull(bars, r, answers)
    requires Clamped(bars, r.interval, Delivered(r, answers.full).value, r.today - FetchWidth(bars, r).value)
    ensures var frame := Delivered(r, answers.full).value;
      var after := Refreshed(bars, r, answers);
      var agrees := !Deviates(bars, frame, Max(First(frame.Keys), SettledTo(bars, r.interval)), Last(bars.Keys));
      && (bars.Keys <= after.Keys <==> agrees)
      && (!agrees ==> after == Rows(frame, if r.interval == Intraday then Fmp else Untagged, r.now))
  {
    var frame, source := Delivered(r, answers.full).value, if r.interval == Intraday then Fmp else Untagged;
    RefreshIs(bars, r, answers);
    ClampKeepsHistoryIff(bars, r.interval, frame, source, r.now, r.today - FetchWidth(bars, r).value);
  }

  // Daily bars are all settled but the last, so a clamped daily answer never shortens anything.
  lemma DailyClampKeepsHistory(bars: Bars, frame: Frame, source: Source, now: int, requestedFrom: int)
    requires frame != map[] && Clamped(bars, Daily, frame, requestedFrom)
    ensures bars.Keys <= Written(bars, Daily, frame, true, source, now, Some(requestedFrom)).Keys
  {
    ClampKeepsHistoryIff(bars, Daily, frame, source, now, requestedFrom);
  }

  // ---- a history lost without a restatement ----

  // Three sessions of seven hourly bars, on days 96 to 98.
  function SessionBar(k: nat): int {
    Midnight(96 + k / 7) + 570 + 60 * (k % 7)
  }

  function SessionBars(n: nat): set<int> {
    set k: nat | k < n :: SessionBar(k)
  }

  lemma {:induction false} SessionBarsCount(n: nat)
    ensures |SessionBars(n)| == n
  {
    if n > 0 {
      SessionBarsCount(n - 1);
      assert SessionBars(n) == SessionBars(n - 1) + {SessionBar(n - 1)};
      forall k: nat | k < n - 1
        ensures SessionBar(k) != SessionBar(n - 1)
      {
        SessionBarsApart(k, n - 1);
      }
    }
  }

  lemma SessionBarsApart(j: nat, k: nat)
    requires j < k
    ensures SessionBar(j) < SessionBar(k)
  {
  }

  // What is held: those bars, and one ninety-six days before them.
  function HeldBars(): Bars {
    map t | t in SessionBars(21) + {570} :: Bar(Quote(100.0, 0), Fmp, 0)
  }

  // The clamped answer: the three sessions, the first hour of the newest corrected by one per cent.
  function CorrectedAnswer(): Frame {
    map t | t in SessionBars(21) :: Quote(if t == Midnight(98) + 570 then 101.0 else 100.0, 0)
  }

  // A forced request for two years after that session, as the weekly resync makes it.
  function Resync(): Request {
    Request(Intraday, 730, true, 98, Midnight(98) + 930, true, true, Midnight(98) + 1000)
  }

  lemma SessionExtent(t: int)
    requires t in SessionBars(21)
    ensures Midnight(96) + 570 <= t <= Midnight(98) + 930
  {
    var k: nat :| k < 21 && t == SessionBar(k);
    if k > 0 {
      SessionBarsApart(0, k);
    }
    if k < 20 {
      SessionBarsApart(k, 20);
    }
  }

  lemma SessionEnds()
    ensures Midnight(96) + 570 in SessionBars(21) && Midnight(98) + 930 in SessionBars(21)
    ensures Midnight(98) + 570 in SessionBars(21)
  {
    assert SessionBar(0) in SessionBars(21) && SessionBar(14) in SessionBars(21) && SessionBar(20) in SessionBars(21);
  }

  lemma HeldExtent()
    ensures HeldBars() != map[] && First(HeldBars().Keys) == 570 && Last(HeldBars().Keys) == Midnight(98) + 930
  {
    SessionEnds();
    assert 570 in HeldBars() && Midnight(98) + 930 in HeldBars();
    forall t | t in HeldBars()
      ensures 570 <= t <= Midnight(98) + 930
    {
      if t != 570 {
        SessionExtent(t);
      }
    }
  }

  lemma AnswerExtent()
    ensures |CorrectedAnswer()| == 21 && First(CorrectedAnswer().Keys) == Midnight(96) + 570
    ensures forall t :: t in CorrectedAnswer() ==> t <= Midnight(98) + 930
  {
    SessionBarsCount(21);
    SessionEnds();
    assert CorrectedAnswer().Keys == SessionBars(21);
    forall t | t in CorrectedAnswer()
      ensures Midnight(96) + 570 <= t <= Midnight(98) + 930
    {
      SessionExtent(t);
    }
  }

  lemma AnswerDelivered()
    ensures Delivered(Resync(), Some(CorrectedAnswer())) == Some(CorrectedAnswer())
  {
    AnswerExtent();
    var frame := CorrectedAnswer();
    assert (map t | t in frame && t <= Cutoff(Resync()) :: frame[t]) == frame;
    assert |frame| != 0;
  }

  // Closes alike but for the first hour of day 98.
  ghost predicate CorrectedAt98(bars: Bars, frame: Frame) {
    && (forall t :: t in bars ==> bars[t].quote.close == 100.0 && bars[t].source == Fmp)
    && (forall t :: t in frame ==> frame[t].close == if t == Midnight(98) + 570 then 101.0 else 100.0)
    && Midnight(98) + 570 in bars && Midnight(98) + 570 in frame
  }

  lemma CorrectionShows(bars: Bars, frame: Frame, lo: int, hi: int)
    requires CorrectedAt98(bars, frame)
    ensures Deviates(bars, frame, lo, hi) <==> lo <= Midnight(98) + 570 < hi
  {
    assert Moved(101.0, 100.0) && !Moved(100.0, 100.0);
  }

  lemma CorrectedIsClamped(bars: Bars, frame: Frame, from: int)
    requires CorrectedAt98(bars, frame) && bars != map[] && frame != map[] && from <= 0
    requires First(bars.Keys) == 570 && Last(bars.Keys) == Midnight(98) + 930
    requires First(frame.Keys) == Midnight(96) + 570
    ensures Clamped(bars, Intraday, frame, from) && !Restated(bars, frame, Intraday)
    ensures Deviates(bars, frame, Midnight(98), Midnight(98) + 930)
  {
    CorrectionShows(bars, frame, First(frame.Keys), SettledTo(bars, Intraday));
    CorrectionShows(bars, frame, SettledFrom(bars, Intraday), SettledTo(bars, Intraday));
    CorrectionShows(bars, frame, Midnight(98), Midnight(98) + 930);
    RestatedIff(bars, frame, Intraday);
  }

  lemma AnswerIsCorrected()
    ensures CorrectedAt98(HeldBars(), CorrectedAnswer())
  {
    SessionEnds();
  }

  // A full answer that meets all this takes the place of what is held.
  lemma CorrectionReplaces(bars: Bars, r: Request, answers: Answers, frame: Frame)
    requires CorrectedAt98(bars, frame) && bars != map[]
    requires First(bars.Keys) == 570 && Last(bars.Keys) == Midnight(98) + 930
    requires Delivered(r, answers.full) == Some(frame) && |frame| >= 20
    requires First(frame.Keys) == Midnight(96) + 570
    requires r.interval == Intraday && r.force && r.live && r.usListed && r.today <= r.lookback
    ensures !Restated(bars, frame, Intraday) && Refreshed(bars, r, answers) == Rows(frame, Fmp, r.now)
  {
    var from := r.today - FetchWidth(bars, r).value;
    CorrectedIsClamped(bars, frame, from);
    FullClampKeepsHistoryIff(bars, r, answers);
  }

  // The input: nothing was restated and the refetch check sees no disagreement, yet the resync
  // replaces the table and the bar of ninety-six days before is gone.
  lemma CorrectedSessionDropsHistory(incremental: Option<Frame>)
    ensures var bars, frame := HeldBars(), CorrectedAnswer();
      && 570 in bars && bars != map[] && !Restated(bars, frame, Intraday)
      && Refreshed(bars, Resync(), Answers(incremental, Some(frame))) == Rows(frame, Fmp, Resync().now)
      && 570 !in frame
  {
    HeldExtent();
    AnswerExtent();
    AnswerDelivered();
    AnswerIsCorrected();
    CorrectionReplaces(HeldBars(), Resync(), Answers(incremental, Some(CorrectedAnswer())), CorrectedAnswer());
  }
}
