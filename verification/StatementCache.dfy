// The cached-statement store of backend/core/cache.py: one row, its freshness rules, the three
// ways of reading through it, and the two other writers of the row: the Refresh button of
// backend/pipeline/refresh.py and the age prune of backend/pipeline/prune_cache.py. Times are
// microseconds, dates are days.
module StatementCache {
  import opened Options
  import opened HistoryMerge
  import opened HistoryRuns

  const DAY := 86_400_000_000
  const EARNINGS_STALENESS_BUFFER_DAYS := 2
  // fetched_at of a row that an explicit refresh marked stale
  const INVALIDATED_AT := 0

  function DateOf(t: int): int { t / DAY }

  datatype CacheRow = CacheRow(fetchedAt: int, body: Body)

  // What calling the fetch function would do.
  datatype Outcome = Answer(body: Body) | VariantUnavailable | HttpError

  // What the caller gets back.
  datatype Served = Payload(body: Body) | Nothing | Raised

  // One call, with everything it reads from its surroundings: the clock when it decides, the
  // clock when it writes, whether its data group is live, whether failures are being tracked.
  datatype Call =
    | Get(now: int, stalenessDays: int, cacheOnly: bool, live: bool, tracking: bool, outcome: Outcome)
    | GetEarnings(now: int, fallbackDays: int, earnings: Option<int>, cacheOnly: bool, live: bool,
                  tracking: bool, outcome: Outcome, writtenAt: int)
    | Force(now: int, live: bool, tracking: bool, outcome: Outcome, writtenAt: int)

  datatype Result = Result(row: Option<CacheRow>, served: Served, wrote: bool)

  predicate IsEarningsAwareStale(row: CacheRow, earnings: Option<int>, fallbackDays: int, now: int) {
    if row.fetchedAt <= INVALIDATED_AT then true
    else match earnings
      case None => now - row.fetchedAt >= fallbackDays * DAY
      case Some(date) =>
        var cutoff := date + EARNINGS_STALENESS_BUFFER_DAYS;
        DateOf(row.fetchedAt) < cutoff && DateOf(now) >= cutoff
  }

  // Whether the cached row, if any, answers the call.
  predicate ServedFresh(row: Option<CacheRow>, c: Call) {
    match c
    case Get(now, days, _, _, _, _) => row.Some? && now - row.value.fetchedAt < days * DAY
    case GetEarnings(now, days, earnings, _, _, _, _, _) =>
      row.Some? && !IsEarningsAwareStale(row.value, earnings, days, now)
    case Force(_, _, _, _, _) => false
  }

  predicate MayFetch(c: Call) {
    c.live && (c.Force? || !c.cacheOnly)
  }

  function Cached(row: Option<CacheRow>, otherwise: Served): Served {
    if row.Some? then Payload(row.value.body) else otherwise
  }

  function Merged(history: bool, row: Option<CacheRow>, body: Body): Body {
    if history then MergeHistory(BodyOf(row), body).rows else body
  }

  function WriteTime(c: Call): int {
    if c.Get? then c.now else c.writtenAt
  }

  function Step(history: bool, row: Option<CacheRow>, c: Call): Result {
    if ServedFresh(row, c) then Result(row, Cached(row, Nothing), false)
    else if !MayFetch(c) then Result(row, Cached(row, if c.Force? then Raised else Nothing), false)
    else match c.outcome
      case Answer(body) =>
        var stored := Merged(history, row, body);
        Result(Some(CacheRow(WriteTime(c), stored)), Payload(stored), true)
      case VariantUnavailable => Result(row, Cached(row, Raised), false)
      case HttpError => Result(row, if c.tracking then Cached(row, Raised) else Raised, false)
  }

  // ---- the other writers ----

  // The Refresh button: a history row is kept and marked stale, any other is deleted; nothing
  // happens while a data group it needs is off.
  function Cleared(history: bool, row: Option<CacheRow>, blocked: bool): Option<CacheRow> {
    if blocked || row.None? then row
    else if history then Some(row.value.(fetchedAt := INVALIDATED_AT))
    else None
  }

  // The age prune: a row older than the retention goes, unless its ticker is tracked (or the prune
  // is skipped) or a Refresh has marked it.
  function AgePruned(row: Option<CacheRow>, now: int, retentionDays: int, spared: bool): Option<CacheRow> {
    if row.Some? && !spared && INVALIDATED_AT < row.value.fetchedAt < now - retentionDays * DAY then None else row
  }

  class Store {
    // whether the key goes through the history merge
    const history: bool
    var row: Option<CacheRow>

    constructor (history: bool)
      ensures this.history == history && row == None
    {
      this.history := history;
      row := None;
    }

    method WriteCacheRow(body: Body, fetchedAt: int) returns (stored: Body)
      modifies this
      ensures stored == Merged(history, old(row), body)
      ensures row == Some(CacheRow(fetchedAt, stored))
    {
      stored := body;
      if history {
        var cached := Missing;
        if row.Some? {
          cached := row.value.body;
        }
        var merge := MergeHistory(cached, body);
        stored := merge.rows;
      }
      row := Some(CacheRow(fetchedAt, stored));
    }

    method FetchOrServeCached(outcome: Outcome, tracking: bool) returns (fetched: bool, served: Served)
      ensures fetched <==> outcome.Answer?
      ensures outcome.Answer? ==> served == Payload(outcome.body)
      ensures outcome.VariantUnavailable? ==> served == Cached(row, Raised)
      ensures outcome.HttpError? ==> served == if tracking then Cached(row, Raised) else Raised
    {
      match outcome
      case Answer(body) =>
        return true, Payload(body);
      case VariantUnavailable =>
        if row.None? {
          return false, Raised;
        }
        return false, Payload(row.value.body);
      case HttpError =>
        if !tracking || row.None? {
          return false, Raised;
        }
        return false, Payload(row.value.body);
    }

    method GetOrFetch(c: Call) returns (served: Served)
      requires c.Get?
      modifies this
      ensures var r := Step(history, old(row), c); row == r.row && served == r.served
    {
      if row.Some? && c.now - row.value.fetchedAt < c.stalenessDays * DAY {
        return Payload(row.value.body);
      }
      if c.cacheOnly || !c.live {
        return if row.Some? then Payload(row.value.body) else Nothing;
      }
      var fetched;
      fetched, served := FetchOrServeCached(c.outcome, c.tracking);
      if fetched {
        var stored := WriteCacheRow(served.body, c.now);
        served := Payload(stored);
      }
    }

    method GetOrFetchEarningsAware(c: Call) returns (served: Served)
      requires c.GetEarnings?
      modifies this
      ensures var r := Step(history, old(row), c); row == r.row && served == r.served
    {
      if row.Some? && !IsEarningsAwareStale(row.value, c.earnings, c.fallbackDays, c.now) {
        return Payload(row.value.body);
      }
      if c.cacheOnly || !c.live {
        return if row.Some? then Payload(row.value.body) else Nothing;
      }
      var fetched;
      fetched, served := FetchOrServeCached(c.outcome, c.tracking);
      if fetched {
        var stored := WriteCacheRow(served.body, c.writtenAt);
        served := Payload(stored);
      }
    }

    method ForceFetch(c: Call) returns (served: Served)
      requires c.Force?
      modifies this
      ensures var r := Step(history, old(row), c); row == r.row && served == r.served
    {
      if !c.live {
        return if row.Some? then Payload(row.value.body) else Raised;
      }
      var fetched;
      fetched, served := FetchOrServeCached(c.outcome, c.tracking);
      if fetched {
        var stored := WriteCacheRow(served.body, c.writtenAt);
        served := Payload(stored);
      }
    }

    method ClearTickerCache(blocked: bool)
      modifies this
      ensures row == Cleared(history, old(row), blocked)
    {
      if !blocked && row.Some? {
        row := if history then Some(row.value.(fetchedAt := INVALIDATED_AT)) else None;
      }
    }

    method PruneByAge(now: int, retentionDays: int, spared: bool) returns (deleted: bool)
      modifies this
      ensures row == AgePruned(old(row), now, retentionDays, spared)
      ensures deleted <==> row != old(row)
    {
      var cutoff := now - retentionDays * DAY;
      deleted := row.Some? && row.value.fetchedAt < cutoff && row.value.fetchedAt > INVALIDATED_AT && !spared;
      if deleted {
        row := None;
      }
    }
  }

  // ---- one call ----

  // A row is written exactly when nothing fresh is cached, the call may fetch, and the fetch
  // succeeds; otherwise the row is left as it is and nothing is lost.
  lemma WrittenIff(history: bool, row: Option<CacheRow>, c: Call)
    ensures var r := Step(history, row, c);
      && (r.wrote <==> !ServedFresh(row, c) && MayFetch(c) && c.outcome.Answer?)
      && (!r.wrote ==> r.row == row && r.served in {Cached(row, Nothing), Cached(row, Raised), Raised})
      && (r.wrote ==> r.row.Some? && r.served == Payload(r.row.value.body))
      && (row.Some? && r.served != Payload(r.row.value.body) ==> c.outcome.HttpError? && !c.tracking)
  {
  }

  // Read again at the instant it was written, a row is stale only when the caller gave no
  // earnings date and a window of no days (or the clock stands at the invalidation mark).
  lemma StaleOnWriteIff(row: CacheRow, earnings: Option<int>, fallbackDays: int)
    ensures IsEarningsAwareStale(row, earnings, fallbackDays, row.fetchedAt)
       <==> row.fetchedAt <= INVALIDATED_AT || (earnings.None? && fallbackDays <= 0)
  {
  }

  // With an earnings date, a valid row is fetched anew exactly when the midnight that begins the
  // second day after that date lies between its last fetch and now.
  lemma EarningsFetchIff(history: bool, row: CacheRow, c: Call, date: int)
    requires c.GetEarnings? && c.earnings == Some(date) && row.fetchedAt > INVALIDATED_AT
    ensures Step(history, Some(row), c).wrote
       <==> MayFetch(c) && c.outcome.Answer? && row.fetchedAt < (date + 2) * DAY <= c.now
  {
    DayBegins(row.fetchedAt, date + 2);
    DayBegins(c.now, date + 2);
  }

  lemma DayBegins(t: int, date: int)
    ensures DateOf(t) >= date <==> t >= date * DAY
  {
  }

  // ---- runs ----

  // A call; a press of the Refresh button; an age prune; or the deletion of all of a ticker's rows.
  datatype Event =
    | Asked(c: Call)
    | Refreshed(at: int, blocked: bool)
    | Pruned(at: int, retentionDays: int, spared: bool)
    | Purged(at: int)

  function Applied(history: bool, row: Option<CacheRow>, e: Event): Option<CacheRow> {
    match e
    case Asked(c) => Step(history, row, c).row
    case Refreshed(_, blocked) => Cleared(history, row, blocked)
    case Pruned(at, days, spared) => AgePruned(row, at, days, spared)
    case Purged(_) => None
  }

  function RowAfter(history: bool, row: Option<CacheRow>, events: seq<Event>): Option<CacheRow>
    decreases |events|
  {
    if events == [] then row
    else Applied(history, RowAfter(history, row, events[..|events| - 1]), events[|events| - 1])
  }

  // When an event looks at the clock, and when it is over.
  function Begins(e: Event): int {
    if e.Asked? then e.c.now else e.at
  }

  function Ends(e: Event): int {
    if e.Asked? then WriteTime(e.c) else e.at
  }

  function EndClock(clock: int, events: seq<Event>): int {
    if events == [] then clock else Ends(events[|events| - 1])
  }

  // One event at a time, on a clock that never runs backwards.
  predicate Clocked(clock: int, events: seq<Event>)
    decreases |events|
  {
    events == [] ||
    var n := |events| - 1;
    && Clocked(clock, events[..n])
    && INVALIDATED_AT < Begins(events[n]) <= Ends(events[n]) && EndClock(clock, events[..n]) <= Begins(events[n])
  }

  // The event marks the row stale or deletes it.
  predicate Clears(history: bool, row: Option<CacheRow>, e: Event) {
    !e.Asked? && Applied(history, row, e) != row
  }

  // The k-th event of a run does so; or is a call that fetched and wrote.
  predicate ClearsAt(history: bool, row: Option<CacheRow>, events: seq<Event>, k: nat)
    requires k < |events|
  {
    Clears(history, RowAfter(history, row, events[..k]), events[k])
  }

  predicate Wrote(history: bool, row: Option<CacheRow>, events: seq<Event>, k: nat)
    requires k < |events|
  {
    events[k].Asked? && Step(history, RowAfter(history, row, events[..k]), events[k].c).wrote
  }

  ghost predicate ClearedBetween(history: bool, row: Option<CacheRow>, events: seq<Event>, i: nat, j: nat)
    requires j <= |events|
  {
    exists k :: i < k < j && ClearsAt(history, row, events, k)
  }

  lemma {:induction false} LaterEnds(clock: int, events: seq<Event>, i: nat)
    requires Clocked(clock, events) && i < |events|
    ensures Ends(events[i]) <= EndClock(clock, events) && INVALIDATED_AT < Begins(events[i]) <= Ends(events[i])
    decreases |events|
  {
    if i < |events| - 1 {
      LaterEnds(clock, events[..|events| - 1], i);
    }
  }

  // After the i-th event wrote, the row stays at least as recent as that write until it is cleared.
  lemma {:induction false} RowStaysRecent(history: bool, row: Option<CacheRow>, clock: int, events: seq<Event>, i: nat)
    requires Clocked(clock, events) && i < |events| && Wrote(history, row, events, i)
    requires !ClearedBetween(history, row, events, i, |events|)
    ensures var r := RowAfter(history, row, events); r.Some? && Ends(events[i]) <= r.value.fetchedAt
    decreases |events|
  {
    var n := |events| - 1;
    if i < n {
      assert forall k :: i <= k < n ==> events[..n][..k] == events[..k];
      forall k | i < k < n
        ensures !ClearsAt(history, row, events[..n], k)
      {
        assert !ClearsAt(history, row, events, k);
      }
      RowStaysRecent(history, row, clock, events[..n], i);
      assert !ClearsAt(history, row, events, n);
      LaterEnds(clock, events, i);
      LaterEnds(clock, events[..n], i);
    }
  }

  lemma {:induction false} PrefixClocked(clock: int, events: seq<Event>, j: nat)
    requires Clocked(clock, events) && j <= |events|
    ensures Clocked(clock, events[..j])
    decreases |events|
  {
    if j < |events| {
      PrefixClocked(clock, events[..|events| - 1], j);
      assert events[..|events| - 1][..j] == events[..j];
    } else {
      assert events[..j] == events;
    }
  }

  // The row as the j-th event finds it, when nothing has cleared it since the i-th wrote.
  lemma FoundRecent(history: bool, row: Option<CacheRow>, clock: int, events: seq<Event>, i: nat, j: nat)
    requires Clocked(clock, events) && i < j < |events| && Wrote(history, row, events, i)
    requires !ClearedBetween(history, row, events, i, j)
    ensures var r := RowAfter(history, row, events[..j]); r.Some? && Ends(events[i]) <= r.value.fetchedAt
    ensures INVALIDATED_AT < Begins(events[i]) <= Ends(events[i])
  {
    PrefixClocked(clock, events, j);
    assert forall k :: 0 <= k < j ==> events[..j][..k] == events[..k];
    forall k | i < k < j
      ensures !ClearsAt(history, row, events[..j], k)
    {
      assert !ClearsAt(history, row, events, k);
    }
    RowStaysRecent(history, row, clock, events[..j], i);
    LaterEnds(clock, events, i);
  }

  predicate Quotes(e: Event, date: int) {
    e.Asked? && e.c.GetEarnings? && e.c.earnings == Some(date)
  }

  // After a fetch that replaced a valid row, no later call quoting the same earnings date fetches
  // again, whatever other calls come in between, unless the row is marked stale or deleted first.
  lemma OneFetchPerEarningsDate(history: bool, row: Option<CacheRow>, clock: int, events: seq<Event>,
                                i: nat, j: nat, date: int)
    requires Clocked(clock, events) && i < j < |events|
    requires var r := RowAfter(history, row, events[..i]); r.Some? && r.value.fetchedAt > INVALIDATED_AT
    requires Quotes(events[i], date) && Quotes(events[j], date)
    requires Wrote(history, row, events, i) && Wrote(history, row, events, j)
    ensures ClearedBetween(history, row, events, i, j)
  {
    if !ClearedBetween(history, row, events, i, j) {
      FoundRecent(history, row, clock, events, i, j);
      DatesMonotone(events[i].c.now, Ends(events[i]));
      DatesMonotone(Ends(events[i]), RowAfter(history, row, events[..j]).value.fetchedAt);
    }
  }

  lemma DatesMonotone(a: int, b: int)
    requires a <= b
    ensures DateOf(a) <= DateOf(b)
  {
  }

  // Flat windows: a fetch by get_or_fetch inside its own staleness window of an earlier fetch has
  // a clearing of the row in between.
  lemma FlatWindowSpacing(history: bool, row: Option<CacheRow>, clock: int, events: seq<Event>, i: nat, j: nat)
    requires Clocked(clock, events) && i < j < |events| && events[j].Asked? && events[j].c.Get?
    requires Wrote(history, row, events, i) && Wrote(history, row, events, j)
    requires events[j].c.now - Ends(events[i]) < events[j].c.stalenessDays * DAY
    ensures ClearedBetween(history, row, events, i, j)
  {
    if !ClearedBetween(history, row, events, i, j) {
      FoundRecent(history, row, clock, events, i, j);
    }
  }

  // ---- how many fetches an earnings date can cost ----

  // A call quoting the date that fetches and writes.
  predicate Fetches(history: bool, row: Option<CacheRow>, e: Event, date: int) {
    Quotes(e, date) && Step(history, row, e.c).wrote
  }

  function FetchesFor(history: bool, row: Option<CacheRow>, events: seq<Event>, date: int): nat
    decreases |events|
  {
    if events == [] then 0
    else
      var n := |events| - 1;
      FetchesFor(history, row, events[..n], date) +
        (if Fetches(history, RowAfter(history, row, events[..n]), events[n], date) then 1 else 0)
  }

  function Clearings(history: bool, row: Option<CacheRow>, events: seq<Event>): nat
    decreases |events|
  {
    if events == [] then 0
    else
      var n := |events| - 1;
      Clearings(history, row, events[..n]) +
        (if Clears(history, RowAfter(history, row, events[..n]), events[n]) then 1 else 0)
  }

  // How many more fetches the date can bring about, if nothing is cleared: none once the row is
  // from the cutoff or later; one for an older row; and for a missing or marked one another,
  // unless the cutoff has already come.
  function Owed(row: Option<CacheRow>, clock: int, date: int): nat {
    var cutoff := date + EARNINGS_STALENESS_BUFFER_DAYS;
    if row.Some? && row.value.fetchedAt > INVALIDATED_AT then
      if DateOf(row.value.fetchedAt) >= cutoff then 0 else 1
    else if DateOf(clock) >= cutoff then 1
    else 2
  }

  // No row is from the future.
  predicate Past(row: Option<CacheRow>, clock: int) {
    row.Some? ==> row.value.fetchedAt <= clock
  }

  lemma OwedStep(history: bool, row: Option<CacheRow>, clock: int, e: Event, date: int)
    requires Past(row, clock) && clock <= Begins(e) <= Ends(e) && INVALIDATED_AT < Begins(e)
    ensures Past(Applied(history, row, e), Ends(e))
    ensures var fetched := if Fetches(history, row, e, date) then 1 else 0;
      var cleared := if Clears(history, row, e) then 1 else 0;
      fetched + Owed(Applied(history, row, e), Ends(e), date) <= Owed(row, clock, date) + cleared
  {
    DatesMonotone(clock, Begins(e));
    DatesMonotone(Begins(e), Ends(e));
    if row.Some? {
      DatesMonotone(row.value.fetchedAt, clock);
    }
  }

  // Over any run, one earnings date costs at most one live fetch (two, when there is no valid row
  // to begin with and the date is still ahead), and one more for each time the row is cleared.
  lemma {:induction false} FetchesBounded(history: bool, row: Option<CacheRow>, clock: int, events: seq<Event>,
                                          date: int)
    requires Clocked(clock, events) && Past(row, clock)
    ensures Past(RowAfter(history, row, events), EndClock(clock, events))
    ensures FetchesFor(history, row, events, date) + Owed(RowAfter(history, row, events), EndClock(clock, events), date)
         <= Owed(row, clock, date) + Clearings(history, row, events)
    decreases |events|
  {
    if events != [] {
      var n := |events| - 1;
      FetchesBounded(history, row, clock, events[..n], date);
      OwedStep(history, RowAfter(history, row, events[..n]), EndClock(clock, events[..n]), events[n], date);
    }
  }

  // ---- calls that may not fetch ----

  predicate AllCacheOnly(events: seq<Event>)
    decreases |events|
  {
    events == [] ||
    var n := |events| - 1;
    AllCacheOnly(events[..n]) && events[n].Asked? && !MayFetch(events[n].c)
  }

  ghost predicate AllServed(history: bool, row: Option<CacheRow>, events: seq<Event>, body: Body) {
    forall k :: 0 <= k < |events| && events[k].Asked? ==>
      Step(history, RowAfter(history, row, events[..k]), events[k].c).served == Payload(body)
  }

  lemma CacheOnlyStep(history: bool, row: Option<CacheRow>, c: Call)
    requires !MayFetch(c)
    ensures var r := Step(history, row, c); r.row == row && (row.Some? ==> r.served == Payload(row.value.body))
  {
  }

  // Cache-only calls, and calls while the group is off, never change the row, and are served it.
  lemma {:induction false} CacheOnlyKeepsRow(history: bool, row: Option<CacheRow>, events: seq<Event>)
    requires AllCacheOnly(events)
    ensures RowAfter(history, row, events) == row
    ensures row.Some? ==> AllServed(history, row, events, row.value.body)
    decreases |events|
  {
    if events != [] {
      var n := |events| - 1;
      CacheOnlyKeepsRow(history, row, events[..n]);
      CacheOnlyStep(history, row, events[n].c);
      if row.Some? {
        ServedExtends(history, row, events, row.value.body);
      }
    }
  }

  lemma ServedExtends(history: bool, row: Option<CacheRow>, events: seq<Event>, body: Body)
    requires events != [] && AllServed(history, row, events[..|events| - 1], body)
    requires var n := |events| - 1;
      events[n].Asked? ==> Step(history, RowAfter(history, row, events[..n]), events[n].c).served == Payload(body)
    ensures AllServed(history, row, events, body)
  {
    var n := |events| - 1;
    assert forall k :: 0 <= k < n ==> events[..n][..k] == events[..k];
  }

  // ---- history rows ----

  // The answers a run wrote since the row was last deleted, oldest first.
  function Written(row: Option<CacheRow>, events: seq<Event>): seq<Body>
    decreases |events|
  {
    if events == [] then []
    else
      var n := |events| - 1;
      var before, e := RowAfter(true, row, events[..n]), events[n];
      if e.Asked? && Step(true, before, e.c).wrote && e.c.outcome.Answer? then
        Written(row, events[..n]) + [e.c.outcome.body]
      else if Applied(true, before, e).None? then []
      else Written(row, events[..n])
  }

  // The bodies of some fetches.
  function Bodies(fs: seq<Fetch>): (bodies: seq<Body>)
    ensures |bodies| == |fs|
    decreases |fs|
  {
    if fs == [] then [] else Bodies(fs[..|fs| - 1]) + [fs[|fs| - 1].body]
  }

  function BodyOf(row: Option<CacheRow>): Body {
    if row.Some? then row.value.body else Missing
  }

  lemma SameLast<T>(a: seq<T>, x: T, b: seq<T>, y: T)
    requires a + [x] == b + [y]
    ensures a == b && x == y
  {
    assert (a + [x])[..|a|] == a && (b + [y])[..|b|] == b;
  }

  // What an event other than a write does to the contents: it keeps or deletes them.
  lemma ContentsKept(row: Option<CacheRow>, e: Event)
    requires !(e.Asked? && Step(true, row, e.c).wrote)
    ensures var after := Applied(true, row, e); after.None? || BodyOf(after) == BodyOf(row)
  {
  }

  // For a history key the row is the merge of the answers written since it was last deleted,
  // whatever mix of calls, refreshes and prunes is made.
  lemma {:induction false} RowIsMergedHistory(events: seq<Event>, fs: seq<Fetch>)
    requires Written(None, events) == Bodies(fs)
    ensures BodyOf(RowAfter(true, None, events)) == HistoryRuns.Store(fs)
    decreases |events|
  {
    if events != [] {
      var n := |events| - 1;
      var before, e := RowAfter(true, None, events[..n]), events[n];
      if e.Asked? && Step(true, before, e.c).wrote {
        var m := |fs| - 1;
        SameLast(Written(None, events[..n]), e.c.outcome.body, Bodies(fs[..m]), fs[m].body);
        RowIsMergedHistory(events[..n], fs[..m]);
      } else if Applied(true, before, e).None? {
        assert fs == [];
      } else {
        ContentsKept(before, e);
        RowIsMergedHistory(events[..n], fs);
      }
    }
  }

  // So a cache driven by proper answers always holds the newest periods returned since its row was
  // last deleted.
  lemma CacheServesNewest(events: seq<Event>, fs: seq<Fetch>)
    requires Written(None, events) == Bodies(fs) && ProperRun(fs)
    ensures IsNewest(RowsOf(BodyOf(RowAfter(true, None, events))), LastReturned(fs), Longest(fs))
  {
    RowIsMergedHistory(events, fs);
    StoreIsNewest(fs);
  }

  // ---- the Refresh button ----

  // A marked row is stale to every rule, except a flat window that reaches back to the mark.
  lemma MarkedIsStale(row: CacheRow, c: Call)
    requires row.fetchedAt == INVALIDATED_AT
    ensures ServedFresh(Some(row), c) <==> c.Get? && c.now < c.stalenessDays * DAY
  {
  }

  predicate OnlyPrunes(events: seq<Event>)
    decreases |events|
  {
    events == [] || (OnlyPrunes(events[..|events| - 1]) && events[|events| - 1].Pruned?)
  }

  // And no age prune deletes it.
  lemma {:induction false} MarkedSurvives(history: bool, row: CacheRow, prunes: seq<Event>)
    requires row.fetchedAt == INVALIDATED_AT && OnlyPrunes(prunes)
    ensures RowAfter(history, Some(row), prunes) == Some(row)
    decreases |prunes|
  {
    if prunes != [] {
      MarkedSurvives(history, row, prunes[..|prunes| - 1]);
    }
  }

  // What the button promises. After a Refresh of a history row, and any prunes before the refetch,
  // the next call that may fetch does, under every rule but a window reaching back to the mark; and
  // whatever proper answer it gets, however short, the row then holds the newest M periods ever
  // returned, M no less than before.
  lemma RefreshKeepsHistory(row: CacheRow, fs: seq<Fetch>, at: int, prunes: seq<Event>, c: Call, f: Fetch)
    requires row.body == HistoryRuns.Store(fs) && ProperRun(fs + [f]) && OnlyPrunes(prunes)
    requires MayFetch(c) && c.outcome == Answer(f.body) && !(c.Get? && c.now < c.stalenessDays * DAY)
    ensures var marked := RowAfter(true, Applied(true, Some(row), Refreshed(at, false)), prunes);
      var after := Step(true, marked, c);
      && after.wrote
      && IsNewest(RowsOf(BodyOf(after.row)), LastReturned(fs + [f]), Longest(fs + [f]))
      && |RowsOf(BodyOf(after.row))| == Max(|RowsOf(row.body)|, |RowsOf(f.body)|)
  {
    var mark := row.(fetchedAt := INVALIDATED_AT);
    MarkedSurvives(true, mark, prunes);
    MarkedIsStale(mark, c);
    var all := fs + [f];
    assert all[..|fs|] == fs;
    StoreIsNewest(all);
    StoreNeverShrinks(fs, f);
  }
}
