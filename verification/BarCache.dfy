// The shared bar cache of backend/clients/shared_bars_cache.py and its two FMP sources in
// backend/clients/daily_bar_sources.py.
//
// Bar times are minutes on the Eastern wall clock, dates are days. A table maps bar times to
// rows. `basis` names the price basis (the restatement epoch) a quote was served on; the code
// never sees it, the properties are about it.
module BarCache {
  import opened Options

  const DAY := 1440
  const FMP_OVERLAP_DAYS := 7
  const INTRADAY_OVERLAP_DAYS := 5
  const FMP_OVERLAP_TOLERANCE := 0.005
  const FMP_COVERAGE_SLACK_DAYS := 10
  const FMP_MIN_FULL_BARS := 20
  const INTRADAY_MIN_FULL_BARS := 20
  const TIER_SLACK_DAYS := 10
  // 16:00 and ten minutes to settle
  const SETTLED := 970
  const DAILY_STEPS := [30, 90, 180, 365, 730, 1825, 3650]
  const INTRADAY_STEPS := [30, 90, 180, 365, 730]
  const DAILY_RETENTION := 6 * 365
  const INTRADAY_RETENTION := 3 * 365

  datatype Interval = Daily | Intraday

  datatype Quote = Quote(close: real, basis: nat)

  type Frame = map<int, Quote>

  datatype Source = Fmp | Untagged

  datatype Bar = Bar(quote: Quote, source: Source, fetchedAt: int)

  type Bars = map<int, Bar>

  function DateOf(t: int): int { t / DAY }

  function Midnight(date: int): int { date * DAY }

  function Min(a: int, b: int): int { if a <= b then a else b }

  function Max(a: int, b: int): int { if a >= b then a else b }

  // ---- the span of a table ----

  predicate IsLeast(m: int, s: set<int>) {
    m in s && forall x :: x in s ==> m <= x
  }

  predicate IsGreatest(m: int, s: set<int>) {
    m in s && forall x :: x in s ==> x <= m
  }

  lemma Element<T>(s: set<T>) returns (x: T)
    requires s != {}
    ensures x in s
  {
    x :| x in s;
  }

  lemma {:induction false} ExtremesExist(s: set<int>)
    requires s != {}
    ensures exists m :: IsLeast(m, s)
    ensures exists m :: IsGreatest(m, s)
    decreases |s|
  {
    var x := Element(s);
    var rest := s - {x};
    assert s == rest + {x};
    if rest == {} {
      assert IsLeast(x, s) && IsGreatest(x, s);
    } else {
      ExtremesExist(rest);
      var lo, hi :| IsLeast(lo, rest) && IsGreatest(hi, rest);
      assert IsLeast(Min(lo, x), s) && IsGreatest(Max(hi, x), s);
    }
  }

  function First(s: set<int>): (m: int)
    requires s != {}
    ensures IsLeast(m, s)
  {
    ExtremesExist(s);
    var m :| IsLeast(m, s);
    m
  }

  function Last(s: set<int>): (m: int)
    requires s != {}
    ensures IsGreatest(m, s)
  {
    ExtremesExist(s);
    var m :| IsGreatest(m, s);
    m
  }

  // ---- comparing an answer with the table ----

  predicate Differs(served: real, held: real)
    requires held != 0.0
  {
    served / held - 1.0 > FMP_OVERLAP_TOLERANCE || served / held - 1.0 < -FMP_OVERLAP_TOLERANCE
  }

  // Some close the two share, at a time in [lo, hi), is off by more than the tolerance.
  predicate Disagrees(bars: Bars, frame: Frame, lo: int, hi: int) {
    exists t :: t in frame && t in bars && lo <= t < hi && bars[t].quote.close != 0.0
      && Differs(frame[t].close, bars[t].quote.close)
  }

  // Where the incremental answer is compared: daily, the last week but for the newest bar;
  // 60m, the sessions of the last days but for the newest session.
  function CompareFrom(bars: Bars, i: Interval): int
    requires bars != map[]
  {
    match i
    case Daily => Last(bars.Keys) - FMP_OVERLAP_DAYS * DAY
    case Intraday => Midnight(DateOf(Last(bars.Keys)) - INTRADAY_OVERLAP_DAYS)
  }

  function CompareTo(bars: Bars, i: Interval): int
    requires bars != map[]
  {
    match i
    case Daily => Last(bars.Keys)
    case Intraday => Midnight(DateOf(Last(bars.Keys)))
  }

  predicate Restated(bars: Bars, frame: Frame, i: Interval)
    requires bars != map[]
  {
    Disagrees(bars, frame, CompareFrom(bars, i), CompareTo(bars, i))
  }

  predicate HoldsLegacy(bars: Bars) {
    exists t :: t in bars && bars[t].source != Fmp
  }

  // ---- writing ----

  // The first date a replacing write is taken to have asked for.
  function AskedFrom(bars: Bars, i: Interval, requestedFrom: int): int
    requires bars != map[]
  {
    if i == Intraday then Min(requestedFrom, DateOf(First(bars.Keys))) else requestedFrom
  }

  // The answer starts well after both what is held and what was asked for.
  predicate Shorter(bars: Bars, i: Interval, frame: Frame, requestedFrom: int)
    requires frame != map[]
  {
    && bars != map[]
    && First(frame.Keys) > First(bars.Keys) + FMP_COVERAGE_SLACK_DAYS * DAY
    && DateOf(First(frame.Keys)) > AskedFrom(bars, i, requestedFrom) + FMP_COVERAGE_SLACK_DAYS
  }

  predicate ShorterAnswerKeepsCachedHistory(bars: Bars, i: Interval, frame: Frame, requestedFrom: int)
    requires frame != map[]
  {
    && Shorter(bars, i, frame, requestedFrom)
    && !(i == Intraday && HoldsLegacy(bars))
    && !Disagrees(bars, frame, First(frame.Keys), Last(bars.Keys))
  }

  function Rows(frame: Frame, source: Source, fetchedAt: int): Bars {
    map t | t in frame :: Bar(frame[t], source, fetchedAt)
  }

  function Written(bars: Bars, i: Interval, frame: Frame, replace: bool, source: Source, fetchedAt: int,
                   requestedFrom: Option<int>): Bars
  {
    if frame == map[] then bars
    else if replace
      && !(requestedFrom.Some? && ShorterAnswerKeepsCachedHistory(bars, i, frame, requestedFrom.value)) then
      Rows(frame, source, fetchedAt)
    else bars + Rows(frame, source, fetchedAt)
  }

  // ---- fetching ----

  // The answers the provider would give to the incremental and to the full request; None is an
  // error, a refusal or an empty answer.
  datatype Answers = Answers(incremental: Option<Frame>, full: Option<Frame>)

  // What is left of an answer without its live bars.
  function CompletedOnly(answer: Option<Frame>, cutoff: int): Option<Frame> {
    if answer.None? then None
    else
      var frame := map t | t in answer.value && t <= cutoff :: answer.value[t];
      if frame == map[] then None else Some(frame)
  }

  datatype Fetched = Unserved | Served(frame: Frame, full: bool)

  function NeededStart(today: int, days: int): int {
    today - (Max(days - 1, 0) - FMP_COVERAGE_SLACK_DAYS)
  }

  predicate FetchesInFull(bars: Bars, i: Interval, today: int, days: int, force: bool) {
    || force || bars == map[]
    || (i == Intraday && HoldsLegacy(bars))
    || DateOf(First(bars.Keys)) > NeededStart(today, days)
  }

  // A full answer that is too thin never replaces anything (a 60m one is never stored at all).
  function FullAnswer(bars: Bars, i: Interval, answer: Option<Frame>): Fetched {
    if answer.None? then Unserved
    else if i == Daily && |answer.value| < FMP_MIN_FULL_BARS && bars != map[] then Unserved
    else if i == Intraday && |answer.value| < INTRADAY_MIN_FULL_BARS then Unserved
    else Served(answer.value, true)
  }

  function FetchOne(bars: Bars, i: Interval, today: int, days: int, force: bool, cutoff: int,
                    answers: Answers): Fetched
  {
    var incremental, full := CompletedOnly(answers.incremental, cutoff), CompletedOnly(answers.full, cutoff);
    if FetchesInFull(bars, i, today, days, force) then FullAnswer(bars, i, full)
    else if incremental.None? then Unserved
    else if Restated(bars, incremental.value, i) then FullAnswer(bars, i, full)
    else Served(incremental.value, false)
  }

  // ---- the fetch decision ----

  function Steps(i: Interval): seq<int> {
    match i
    case Daily => DAILY_STEPS
    case Intraday => INTRADAY_STEPS
  }

  // The widest step the span reaches, or 0.
  function TierFor(steps: seq<int>, span: int): int
    decreases |steps|
  {
    if steps == [] then 0
    else
      var n := |steps| - 1;
      if span >= steps[n] - TIER_SLACK_DAYS then steps[n] else TierFor(steps[..n], span)
  }

  function PreservedLookbackDays(bars: Bars, i: Interval): int {
    if bars == map[] then 0
    else
      var span := DateOf(Last(bars.Keys)) - DateOf(First(bars.Keys)) + 1;
      var tier := TierFor(Steps(i), span);
      if tier != 0 then tier else span
  }

  // One read-through request: `completed` is the newest completed session's date for daily bars
  // and the newest completed bar's start for 60m; `live`: the data group is on.
  datatype Request = Request(interval: Interval, lookback: nat, force: bool, today: int, completed: int,
                             live: bool, usListed: bool, now: int)

  // The first date a request needs, today counting as one of its days.
  function NeededFrom(r: Request): int {
    r.today - Max(r.lookback - 1, 0)
  }

  predicate IsStale(bars: Bars, r: Request)
    requires bars != map[]
  {
    if r.interval == Daily then DateOf(Last(bars.Keys)) < r.completed else Last(bars.Keys) < r.completed
  }

  // The last daily bar was written before its own session had settled.
  predicate Provisional(bars: Bars, r: Request)
    requires bars != map[]
  {
    && r.interval == Daily && DateOf(Last(bars.Keys)) >= r.completed
    && forall t :: t in bars ==> bars[t].fetchedAt < Midnight(DateOf(Last(bars.Keys))) + SETTLED
  }

  predicate NeedsFetch(bars: Bars, r: Request) {
    || r.force || bars == map[]
    || IsStale(bars, r) || Provisional(bars, r)
    || DateOf(First(bars.Keys)) > NeededFrom(r)
    || (r.interval == Intraday && r.live && r.usListed && HoldsLegacy(bars))
  }

  function FetchWidth(bars: Bars, r: Request): Option<int> {
    if NeedsFetch(bars, r) then Some(Max(r.lookback, PreservedLookbackDays(bars, r.interval))) else None
  }

  function Cutoff(r: Request): int {
    if r.interval == Daily then Midnight(r.completed) else r.completed
  }

  // What one request leaves in a ticker's table.
  function Refreshed(bars: Bars, r: Request, answers: Answers): Bars {
    var width := FetchWidth(bars, r);
    if width.None? || !r.usListed || !r.live then bars
    else
      var fetched := FetchOne(bars, r.interval, r.today, width.value, r.force, Cutoff(r), answers);
      if fetched.Unserved? then bars
      else Written(bars, r.interval, fetched.frame, fetched.full, if r.interval == Intraday then Fmp else Untagged,
                   r.now, Some(r.today - width.value))
  }

  function Pruned(bars: Bars, i: Interval, today: int): Bars {
    map t | t in bars && t >= RetentionCutoff(i, today) :: bars[t]
  }

  // ---- the cache ----

  type Tables = map<(string, Interval), Bars>

  function At(tables: Tables, ticker: string, i: Interval): Bars {
    if (ticker, i) in tables then tables[(ticker, i)] else map[]
  }

  // One ticker's share of a batch.
  function RefreshedAt(tables: Tables, t: string, r: Request, us: set<string>, answers: map<string, Answers>): Bars
    requires t in answers
  {
    Refreshed(At(tables, t, r.interval), r.(usListed := t in us), answers[t])
  }

  function WidthAt(tables: Tables, t: string, r: Request, us: set<string>): Option<int> {
    FetchWidth(At(tables, t, r.interval), r.(usListed := t in us))
  }

  // Whether the source serves that ticker.
  predicate ServedAt(tables: Tables, t: string, r: Request, us: set<string>, answers: map<string, Answers>)
    requires t in answers
  {
    var bars, width := At(tables, t, r.interval), WidthAt(tables, t, r, us);
    && width.Some? && r.live && t in us
    && FetchOne(bars, r.interval, r.today, width.value, r.force, Cutoff(r), answers[t]).Served?
  }

  // What a caller is given of a table: its own window.
  function InWindow(bars: Bars, r: Request): Bars {
    map t | t in bars && t >= Midnight(NeededFrom(r)) :: bars[t]
  }

  function RetentionCutoff(i: Interval, today: int): int {
    Midnight(today - (if i == Daily then DAILY_RETENTION else INTRADAY_RETENTION))
  }

  // The bars of an interval that a prune removes.
  function Expired(tables: Tables, i: Interval, today: int): set<(string, int)> {
    set k, t | k in tables && k.1 == i && t in tables[k] && t < RetentionCutoff(i, today) :: (k.0, t)
  }

  class SharedBarsCache {
    var tables: Tables

    constructor ()
      ensures tables == map[]
    {
      tables := map[];
    }

    ghost function Stored(ticker: string, i: Interval): Bars
      reads this
    {
      At(tables, ticker, i)
    }

    method PreservedLookback(bars: Bars, i: Interval) returns (days: int)
      ensures days == PreservedLookbackDays(bars, i)
    {
      if bars == map[] {
        return 0;
      }
      var span := DateOf(Last(bars.Keys)) - DateOf(First(bars.Keys)) + 1;
      var steps := Steps(i);
      var tier := 0;
      for k := 0 to |steps|
        invariant tier == TierFor(steps[..k], span)
      {
        assert steps[..k + 1][..k] == steps[..k];
        if span >= steps[k] - TIER_SLACK_DAYS {
          tier := steps[k];
        }
      }
      assert steps[..|steps|] == steps;
      days := if tier != 0 then tier else span;
    }

    method WriteRows(ticker: string, i: Interval, frame: Frame, replace: bool, source: Source, fetchedAt: int,
                     requestedFrom: Option<int>)
      modifies this
      ensures Stored(ticker, i) == Written(old(Stored(ticker, i)), i, frame, replace, source, fetchedAt, requestedFrom)
      ensures forall t, j :: (t, j) != (ticker, i) ==> Stored(t, j) == old(Stored(t, j))
    {
      if frame == map[] {
        return;
      }
      var bars := At(tables, ticker, i);
      var replacing := replace;
      if replacing && requestedFrom.Some? && ShorterAnswerKeepsCachedHistory(bars, i, frame, requestedFrom.value) {
        replacing := false;
      }
      if replacing {
        bars := map[];
      }
      bars := bars + Rows(frame, source, fetchedAt);
      assert map[] + Rows(frame, source, fetchedAt) == Rows(frame, source, fetchedAt);
      tables := tables[(ticker, i) := bars];
    }

    // Which tickers to fetch, and how many days back.
    method SelectTickers(tickers: seq<string>, r: Request, us: set<string>) returns (toFetch: map<string, int>)
      ensures forall t :: t in toFetch <==> t in tickers && WidthAt(tables, t, r, us).Some?
      ensures forall t :: t in toFetch ==> WidthAt(tables, t, r, us) == Some(toFetch[t])
    {
      toFetch := map[];
      for k := 0 to |tickers|
        invariant forall t :: t in toFetch <==> t in tickers[..k] && WidthAt(tables, t, r, us).Some?
        invariant forall t :: t in toFetch ==> WidthAt(tables, t, r, us) == Some(toFetch[t])
      {
        var t := tickers[k];
        var bars := At(tables, t, r.interval);
        var existing := PreservedLookback(bars, r.interval);
        if NeedsFetch(bars, r.(usListed := t in us)) {
          toFetch := toFetch[t := Max(r.lookback, existing)];
        }
        assert tickers[..k + 1] == tickers[..k] + [t];
      }
    }

    // Ask the source for one ticker and write what it serves.
    method FetchAndWrite(t: string, r: Request, us: set<string>, width: int, answers: map<string, Answers>)
      returns (served: bool)
      requires t in answers && r.live && t in us && WidthAt(tables, t, r, us) == Some(width)
      modifies this
      ensures Stored(t, r.interval) == RefreshedAt(old(tables), t, r, us, answers)
      ensures forall u, j :: (u, j) != (t, r.interval) ==> Stored(u, j) == old(Stored(u, j))
      ensures served <==> ServedAt(old(tables), t, r, us, answers)
    {
      var bars := At(tables, t, r.interval);
      var fetched := FetchOne(bars, r.interval, r.today, width, r.force, Cutoff(r), answers[t]);
      served := fetched.Served?;
      if served {
        WriteRows(t, r.interval, fetched.frame, fetched.full, if r.interval == Intraday then Fmp else Untagged, r.now,
                  Some(r.today - width));
      }
    }

    // Each listed ticker's own window, where it holds anything.
    method LoadFrames(tickers: seq<string>, r: Request) returns (frames: map<string, Bars>)
      ensures forall t :: t in frames <==> t in tickers && InWindow(At(tables, t, r.interval), r) != map[]
      ensures forall t :: t in frames ==> frames[t] == InWindow(At(tables, t, r.interval), r)
    {
      frames := map[];
      for k := 0 to |tickers|
        invariant forall t :: t in frames <==> t in tickers[..k] && InWindow(At(tables, t, r.interval), r) != map[]
        invariant forall t :: t in frames ==> frames[t] == InWindow(At(tables, t, r.interval), r)
      {
        var bars := InWindow(At(tables, tickers[k], r.interval), r);
        if bars != map[] {
          frames := frames[tickers[k] := bars];
        }
        assert tickers[..k + 1] == tickers[..k] + [tickers[k]];
      }
    }

    // The fetching half of a batch: ask the source for every chosen ticker, write what it serves.
    method RefreshAll(tickers: seq<string>, r: Request, us: set<string>, answers: map<string, Answers>)
      returns (unserved: set<string>)
      requires forall t :: t in tickers ==> t in answers
      modifies this
      ensures forall t :: t in tickers ==> Stored(t, r.interval) == RefreshedAt(old(tables), t, r, us, answers)
      ensures forall t, j :: t !in tickers || j != r.interval ==> Stored(t, j) == old(Stored(t, j))
      ensures forall t :: t in unserved <==>
        t in tickers && t in us && WidthAt(old(tables), t, r, us).Some? && !ServedAt(old(tables), t, r, us, answers)
    {
      var toFetch := SelectTickers(tickers, r, us);
      if !r.live {
        unserved := set t | t in toFetch && t in us;
        return;
      }
      unserved := {};
      var done: set<string> := {};
      for k := 0 to |tickers|
        invariant forall t :: t in done <==> t in tickers[..k]
        invariant forall t, j :: t !in done || j != r.interval ==> Stored(t, j) == old(Stored(t, j))
        invariant forall t :: t in done ==> Stored(t, r.interval) == RefreshedAt(old(tables), t, r, us, answers)
        invariant forall t :: t in unserved <==>
          t in done && t in toFetch && t in us && !ServedAt(old(tables), t, r, us, answers)
      {
        var t := tickers[k];
        if t in toFetch && t in us && t !in done {
          assert Stored(t, r.interval) == old(Stored(t, r.interval));
          var served := FetchAndWrite(t, r, us, toFetch[t], answers);
          if !served {
            unserved := unserved + {t};
          }
        }
        done := done + {t};
        assert tickers[..k + 1] == tickers[..k] + [t];
      }
    }

    // The read-through batch: refresh what needs it, then give each caller its own window.
    method GetOrFetchBarsBatch(tickers: seq<string>, r: Request, us: set<string>, answers: map<string, Answers>)
      returns (frames: map<string, Bars>, unserved: set<string>)
      requires forall t :: t in tickers ==> t in answers
      modifies this
      ensures forall t :: t in tickers ==> Stored(t, r.interval) == RefreshedAt(old(tables), t, r, us, answers)
      ensures forall t, j :: t !in tickers || j != r.interval ==> Stored(t, j) == old(Stored(t, j))
      ensures forall t :: t in frames <==> t in tickers && InWindow(Stored(t, r.interval), r) != map[]
      ensures forall t :: t in frames ==> frames[t] == InWindow(Stored(t, r.interval), r)
      ensures forall t :: t in unserved <==>
        t in tickers && t in us && WidthAt(old(tables), t, r, us).Some? && !ServedAt(old(tables), t, r, us, answers)
    {
      unserved := RefreshAll(tickers, r, us, answers);
      frames := LoadFrames(tickers, r);
    }

    // How many bars of each interval are, or in a dry run would be, deleted.
    method PruneOldBars(today: int, dryRun: bool) returns (daily: nat, intraday: nat)
      modifies this
      ensures forall t, i :: Stored(t, i) == if dryRun then old(Stored(t, i)) else Pruned(old(Stored(t, i)), i, today)
      ensures daily == |Expired(old(tables), Daily, today)| && intraday == |Expired(old(tables), Intraday, today)|
    {
      daily, intraday := |Expired(tables, Daily, today)|, |Expired(tables, Intraday, today)|;
      if !dryRun {
        tables := map k | k in tables :: Pruned(tables[k], k.1, today);
      }
    }
  }
}
