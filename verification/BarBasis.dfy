// Every stored bar of a ticker is on one price basis, whatever run of refreshes and prunes
// produced it.
module BarBasis {
  import opened Options
  import opened BarCache

  // ---- what is compared ----

  // A close off by more than half a percent of the one held.
  predicate Moved(served: real, held: real)
    requires held != 0.0
  {
    served / held > 1.005 || served / held < 0.995
  }

  // Some close that both hold, at a time in [lo, hi), has moved.
  predicate Deviates(bars: Bars, frame: Frame, lo: int, hi: int) {
    exists t :: t in frame && t in bars && lo <= t < hi && bars[t].quote.close != 0.0
      && Moved(frame[t].close, bars[t].quote.close)
  }

  // The bars a top-up is compared on: daily, the seven days before the newest bar; 60m, the five
  // dates before the newest bar's.
  function SettledFrom(bars: Bars, i: Interval): int
    requires bars != map[]
  {
    var last := Last(bars.Keys);
    if i == Daily then last - 7 * 1440 else (last / 1440 - 5) * 1440
  }

  function SettledTo(bars: Bars, i: Interval): int
    requires bars != map[]
  {
    var last := Last(bars.Keys);
    if i == Daily then last else last / 1440 * 1440
  }

  lemma MovedShows(bars: Bars, frame: Frame, lo: int, hi: int)
    ensures Disagrees(bars, frame, lo, hi) <==> Deviates(bars, frame, lo, hi)
  {
    if Disagrees(bars, frame, lo, hi) {
      var t :| t in frame && t in bars && lo <= t < hi && bars[t].quote.close != 0.0
        && Differs(frame[t].close, bars[t].quote.close);
      assert Moved(frame[t].close, bars[t].quote.close);
    }
    if Deviates(bars, frame, lo, hi) {
      var t :| t in frame && t in bars && lo <= t < hi && bars[t].quote.close != 0.0
        && Moved(frame[t].close, bars[t].quote.close);
      assert Differs(frame[t].close, bars[t].quote.close);
    }
  }

  // A top-up counts as restated exactly when one of those closes has moved.
  lemma RestatedIff(bars: Bars, frame: Frame, i: Interval)
    requires bars != map[]
    ensures Restated(bars, frame, i) <==> Deviates(bars, frame, SettledFrom(bars, i), SettledTo(bars, i))
  {
    MovedShows(bars, frame, SettledFrom(bars, i), SettledTo(bars, i));
  }

  // ---- one basis ----

  ghost predicate OneBasis(bars: Bars) {
    forall t, u :: t in bars && u in bars ==> bars[t].quote.basis == bars[u].quote.basis
  }

  ghost predicate AllOn(bars: Bars, basis: nat) {
    forall t :: t in bars ==> bars[t].quote.basis == basis
  }

  ghost predicate FrameOn(frame: Frame, basis: nat) {
    forall t :: t in frame ==> frame[t].basis == basis
  }

  // At the times in [lo, hi) that both hold, a change of basis shows: a restatement moves every
  // close by more than the tolerance.
  ghost predicate Reveals(bars: Bars, frame: Frame, lo: int, hi: int) {
    forall t :: t in frame && t in bars && lo <= t < hi ==>
      && bars[t].quote.close != 0.0
      && (frame[t].basis != bars[t].quote.basis ==> Moved(frame[t].close, bars[t].quote.close))
  }

  // And nothing else moves a close that far: the bars compared are settled.
  ghost predicate Settled(bars: Bars, frame: Frame, lo: int, hi: int) {
    forall t :: t in frame && t in bars && lo <= t < hi && bars[t].quote.close != 0.0 ==>
      (Moved(frame[t].close, bars[t].quote.close) ==> frame[t].basis != bars[t].quote.basis)
  }

  // They share at least one bar.
  ghost predicate Shares(bars: Bars, frame: Frame, lo: int, hi: int) {
    exists t :: t in frame && t in bars && lo <= t < hi
  }

  // What is asked of an incremental answer: it shows a change of basis where it is compared, and
  // shares a bar there or overwrites everything.
  ghost predicate HonestIncremental(bars: Bars, i: Interval, frame: Frame, basis: nat)
    requires bars != map[]
  {
    && FrameOn(frame, basis)
    && Reveals(bars, frame, SettledFrom(bars, i), SettledTo(bars, i))
    && (Shares(bars, frame, SettledFrom(bars, i), SettledTo(bars, i)) || bars.Keys <= frame.Keys)
  }

  // And of a full one: only an answer that may be laid over the table has to share a bar with it.
  ghost predicate HonestFull(bars: Bars, i: Interval, frame: Frame, requestedFrom: int, basis: nat)
    requires frame != map[]
  {
    && FrameOn(frame, basis)
    && (Shorter(bars, i, frame, requestedFrom) && !(i == Intraday && HoldsLegacy(bars)) ==>
          && Reveals(bars, frame, First(frame.Keys), Last(bars.Keys))
          && Shares(bars, frame, First(frame.Keys), Last(bars.Keys)))
  }

  lemma OverlapReveals(bars: Bars, frame: Frame, lo: int, hi: int, held: nat, basis: nat)
    requires AllOn(bars, held) && FrameOn(frame, basis)
    requires Reveals(bars, frame, lo, hi) && Shares(bars, frame, lo, hi)
    ensures held != basis ==> Disagrees(bars, frame, lo, hi) && Deviates(bars, frame, lo, hi)
  {
    var t :| t in frame && t in bars && lo <= t < hi;
    if held != basis {
      assert Moved(frame[t].close, bars[t].quote.close);
      MovedShows(bars, frame, lo, hi);
    }
  }

  // Over settled bars the comparison decides: they disagree exactly when the basis has changed.
  lemma OverlapTells(bars: Bars, frame: Frame, lo: int, hi: int, held: nat, basis: nat)
    requires AllOn(bars, held) && FrameOn(frame, basis)
    requires Reveals(bars, frame, lo, hi) && Settled(bars, frame, lo, hi) && Shares(bars, frame, lo, hi)
    ensures Deviates(bars, frame, lo, hi) <==> held != basis
  {
    OverlapReveals(bars, frame, lo, hi, held, basis);
  }

  // So a history that was not restated never causes the full refetch, and one that was always
  // does: the bars compared are all settled, for 60m because the newest session is exempt.
  lemma RestatedIffBasisChanged(bars: Bars, i: Interval, frame: Frame, held: nat, basis: nat)
    requires bars != map[] && AllOn(bars, held) && HonestIncremental(bars, i, frame, basis)
    requires Shares(bars, frame, SettledFrom(bars, i), SettledTo(bars, i))
    requires Settled(bars, frame, SettledFrom(bars, i), SettledTo(bars, i))
    ensures Restated(bars, frame, i) <==> held != basis
  {
    OverlapTells(bars, frame, SettledFrom(bars, i), SettledTo(bars, i), held, basis);
    RestatedIff(bars, frame, i);
  }

  lemma UpsertOn(bars: Bars, frame: Frame, source: Source, now: int, basis: nat)
    requires AllOn(bars, basis) && FrameOn(frame, basis)
    ensures AllOn(bars + Rows(frame, source, now), basis)
  {
  }

  lemma CoverOn(bars: Bars, frame: Frame, source: Source, now: int, basis: nat)
    requires bars.Keys <= frame.Keys && FrameOn(frame, basis)
    ensures AllOn(bars + Rows(frame, source, now), basis)
  {
    assert forall t :: t in bars + Rows(frame, source, now) ==> t in frame;
  }

  // An incremental answer that raises no alarm leaves every bar on its basis.
  lemma IncrementalWriteOn(bars: Bars, i: Interval, frame: Frame, source: Source, now: int, held: nat, basis: nat)
    requires bars != map[] && AllOn(bars, held) && HonestIncremental(bars, i, frame, basis)
    requires !Restated(bars, frame, i)
    ensures AllOn(bars + Rows(frame, source, now), basis)
  {
    if bars.Keys <= frame.Keys {
      CoverOn(bars, frame, source, now, basis);
    } else {
      OverlapReveals(bars, frame, SettledFrom(bars, i), SettledTo(bars, i), held, basis);
      UpsertOn(bars, frame, source, now, held);
    }
  }

  // A full answer is written whole, or laid over bars it agrees with.
  lemma FullWriteOn(bars: Bars, i: Interval, frame: Frame, source: Source, now: int, requestedFrom: int,
                    held: nat, basis: nat)
    requires frame != map[] && AllOn(bars, held) && HonestFull(bars, i, frame, requestedFrom, basis)
    ensures AllOn(Written(bars, i, frame, true, source, now, Some(requestedFrom)), basis)
  {
    if ShorterAnswerKeepsCachedHistory(bars, i, frame, requestedFrom) {
      OverlapReveals(bars, frame, First(frame.Keys), Last(bars.Keys), held, basis);
      UpsertOn(bars, frame, source, now, basis);
    }
  }

  // What is delivered for a request, after the live bars are dropped.
  function Delivered(r: Request, answer: Option<Frame>): Option<Frame> {
    CompletedOnly(answer, Cutoff(r))
  }

  // The provider's answers to a request, each on one basis (a restatement may fall in between).
  // Nothing is asked of an answer the request does not call for.
  ghost predicate Honest(bars: Bars, r: Request, answers: Answers, incremental: nat, full: nat) {
    var width := FetchWidth(bars, r);
    var first, second := Delivered(r, answers.incremental), Delivered(r, answers.full);
    width.Some? ==>
      && (first.Some? && !FetchesInFull(bars, r.interval, r.today, width.value, r.force) ==>
            HonestIncremental(bars, r.interval, first.value, incremental))
      && (second.Some? ==> HonestFull(bars, r.interval, second.value, r.today - width.value, full))
  }

  // A refresh leaves the table as it is, or brings every stored bar to the basis of the answer
  // that was stored: nothing is ever spliced.
  lemma RefreshKeepsBasis(bars: Bars, r: Request, answers: Answers, held: nat, incremental: nat, full: nat)
    requires AllOn(bars, held) && Honest(bars, r, answers, incremental, full)
    ensures var after := Refreshed(bars, r, answers);
      after == bars || (after != map[] && (AllOn(after, incremental) || AllOn(after, full)))
    ensures OneBasis(Refreshed(bars, r, answers))
  {
    var width := FetchWidth(bars, r);
    if width.Some? && r.usListed && r.live {
      var first, second := Delivered(r, answers.incremental), Delivered(r, answers.full);
      var fetched := FetchOne(bars, r.interval, r.today, width.value, r.force, Cutoff(r), answers);
      var source := if r.interval == Intraday then Fmp else Untagged;
      if fetched.Served? && fetched.full {
        FullWriteOn(bars, r.interval, second.value, source, r.now, r.today - width.value, held, full);
        WriteIsNotEmpty(bars, r.interval, second.value, true, source, r.now, Some(r.today - width.value));
      } else if fetched.Served? {
        IncrementalWriteOn(bars, r.interval, first.value, source, r.now, held, incremental);
        WriteIsNotEmpty(bars, r.interval, first.value, false, source, r.now, Some(r.today - width.value));
      }
    }
  }

  lemma WriteIsNotEmpty(bars: Bars, i: Interval, frame: Frame, replace: bool, source: Source, now: int,
                        requestedFrom: Option<int>)
    requires frame != map[]
    ensures Written(bars, i, frame, replace, source, now, requestedFrom) != map[]
  {
    var t := Element(frame.Keys);
    assert t in Rows(frame, source, now);
  }

  // ---- runs ----

  // A refresh with the bases its answers are on, or a weekly prune.
  datatype Event =
    | Refresh(r: Request, answers: Answers, incremental: nat, full: nat)
    | Prune(interval: Interval, today: int)

  function Applied(bars: Bars, e: Event): Bars {
    match e
    case Refresh(r, answers, _, _) => Refreshed(bars, r, answers)
    case Prune(i, today) => Pruned(bars, i, today)
  }

  function After(bars: Bars, events: seq<Event>): Bars
    decreases |events|
  {
    if events == [] then bars
    else Applied(After(bars, events[..|events| - 1]), events[|events| - 1])
  }

  ghost predicate HonestRun(bars: Bars, events: seq<Event>) {
    forall k :: 0 <= k < |events| && events[k].Refresh? ==>
      Honest(After(bars, events[..k]), events[k].r, events[k].answers, events[k].incremental, events[k].full)
  }

  // Single basis: after any run of incremental, full, clamped, thin and failed refreshes and
  // prunes, with restatements anywhere between them, all stored bars are on one basis.
  lemma {:induction false} RunKeepsOneBasis(bars: Bars, events: seq<Event>)
    requires OneBasis(bars) && HonestRun(bars, events)
    ensures OneBasis(After(bars, events))
    decreases |events|
  {
    if events != [] {
      var n := |events| - 1;
      assert forall k :: 0 <= k < n ==> events[..n][..k] == events[..k];
      RunKeepsOneBasis(bars, events[..n]);
      var before := After(bars, events[..n]);
      if events[n].Refresh? {
        var held: nat :| AllOn(before, held) by { HasBasis(before); }
        var e := events[n];
        RefreshKeepsBasis(before, e.r, e.answers, held, e.incremental, e.full);
      }
    }
  }

  lemma HasBasis(bars: Bars)
    requires OneBasis(bars)
    ensures exists b: nat :: AllOn(bars, b)
  {
    if bars == map[] {
      assert AllOn(bars, 0);
    } else {
      var t := Element(bars.Keys);
      assert AllOn(bars, bars[t].quote.basis);
    }
  }

  // ---- when the premise fails ----

  // An answer for given dates, on whatever basis, that shows a change of basis where it is compared.
  ghost predicate Credible(bars: Bars, i: Interval, dates: set<int>, frame: Frame, basis: nat)
    requires bars != map[]
  {
    && frame.Keys == dates
    && FrameOn(frame, basis)
    && Reveals(bars, frame, SettledFrom(bars, i), SettledTo(bars, i))
  }

  ghost predicate UpsertSafe(bars: Bars, i: Interval, frame: Frame)
    requires bars != map[]
  {
    Restated(bars, frame, i) || OneBasis(bars + Rows(frame, Fmp, 0))
  }

  lemma Beyond<T>(a: set<T>, b: set<T>) returns (x: T)
    requires !(a <= b)
    ensures x in a && x !in b
  {
    x :| x in a && x !in b;
  }

  // The shared settled bar is what the guarantee rests on. For an answer covering given dates,
  // an incremental write is safe whatever basis the provider has moved to if and only if one of
  // those dates is a settled bar in the compared range, or every stored bar is overwritten.
  lemma IncrementalSafeIff(bars: Bars, i: Interval, dates: set<int>)
    requires bars != map[] && dates != {} && OneBasis(bars)
    ensures (forall frame: Frame, b: nat :: Credible(bars, i, dates, frame, b) ==> UpsertSafe(bars, i, frame))
       <==> || (exists t :: t in dates && t in bars && SettledFrom(bars, i) <= t < SettledTo(bars, i))
            || bars.Keys <= dates
  {
    HasBasis(bars);
    var held: nat :| AllOn(bars, held);
    if (exists t :: t in dates && t in bars && SettledFrom(bars, i) <= t < SettledTo(bars, i)) || bars.Keys <= dates {
      forall frame: Frame, b: nat | Credible(bars, i, dates, frame, b)
        ensures UpsertSafe(bars, i, frame)
      {
        SafeUpsert(bars, i, dates, frame, held, b);
      }
    } else {
      UnsafeUpsert(bars, i, dates, held);
    }
  }

  lemma SafeUpsert(bars: Bars, i: Interval, dates: set<int>, frame: Frame, held: nat, b: nat)
    requires bars != map[] && AllOn(bars, held) && Credible(bars, i, dates, frame, b)
    requires Shares(bars, frame, SettledFrom(bars, i), SettledTo(bars, i)) || bars.Keys <= dates
    ensures UpsertSafe(bars, i, frame)
  {
    if Shares(bars, frame, SettledFrom(bars, i), SettledTo(bars, i)) {
      OverlapReveals(bars, frame, SettledFrom(bars, i), SettledTo(bars, i), held, b);
    } else {
      assert forall t :: t in bars + Rows(frame, Fmp, 0) ==> t in frame;
    }
  }

  lemma UnsafeUpsert(bars: Bars, i: Interval, dates: set<int>, held: nat)
    requires bars != map[] && AllOn(bars, held) && dates != {} && !(bars.Keys <= dates)
    requires forall t :: t in dates && t in bars ==> !(SettledFrom(bars, i) <= t < SettledTo(bars, i))
    ensures exists frame: Frame, b: nat :: Credible(bars, i, dates, frame, b) && !UpsertSafe(bars, i, frame)
  {
    var frame: Frame := map t | t in dates :: Quote(1.0, held + 1);
    assert Credible(bars, i, dates, frame, held + 1);
    var t := Element(dates);
    var u := Beyond(bars.Keys, dates);
    var after := bars + Rows(frame, Fmp, 0);
    assert after[t].quote.basis == held + 1 && after[u].quote.basis == held;
  }

  // ---- provenance ----

  // After any 60m write every stored row is FMP's, so the ticker is never again fetched for its
  // legacy rows; and a table that is all FMP's stays so.
  lemma IntradayRowsAreFmp(bars: Bars, r: Request, answers: Answers)
    requires r.interval == Intraday
    ensures Refreshed(bars, r, answers) != bars || !HoldsLegacy(bars) ==> !HoldsLegacy(Refreshed(bars, r, answers))
  {
  }
}
