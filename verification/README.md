# Verified engines of the stock-research backend

The backend screens stocks on data it fetches from Financial Modeling Prep (FMP) and keeps in local tables. This
project models, in Dafny, the parts of it that hold state across calls and promise something about whole histories of
calls, and proves those promises for every input and every sequence of events:

- **Bar tables** (`BarCache`, `BarAnswers`, `BarBasis`, `BarProtection`, `BarWidth`, `BarFreshness`, `LongHistory`,
  `IntradayPaging`, `TradingClock`). A cache of prices that has to agree with a provider which restates, clamps and pages its history. A bar carries the price basis
  it was served on; the code never sees that mark, the theorems are about it.
- **The FMP client and its gate** (`TokenBucket`, `AuthBreaker`, `DataGroups`, `GateAnswers`). The outbound limiter,
  the 401/403 circuit breaker with its 429 retry, and the stored state of data groups and request variants.
- **The statement cache** (`HistoryMerge`, `HistoryRuns`, `StatementCache`, `StatementReads`). The merge that protects
  cached history, what a whole history of answers leaves behind, and the freshness rules that decide when FMP is asked at all.
- **Logins** (`LoginThrottle`, `LoginOutcome`, `Sessions`, `PasswordFormat`). Who is signed in and what anyone else is
  told, two implementations of one lockout counter, a sliding window per source, the session clock, and the stored password string.
- **Smaller kernels** (`BodyLimit`, `FairValueGaps`, `EventBuckets`). The request-body limit as a protocol, fair value
  gaps, and the chart's dividend markers.

Objects the source updates in place are classes whose methods are proved against a function of the old state; the
results about histories are lemmas about that function. What each main operation answers and stores is also stated
without that function, by status number, date, window and literal limit: `LoginOutcome`, `GateAnswers`, `StatementReads`,
`BarAnswers`, and the last sections of the other modules. A locked section, or the code between two awaits, is one step.
Dates are whole numbers of days, times whole numbers of minutes, seconds or microseconds (each module says which), and
prices, tokens and rates are reals. The clock, the provider's answers, whether a data group is live, and the key
derivation are parameters.

`dafny verify dfyconfig.toml` checks everything.

## Where the code and its descriptions part

The model follows the code. Each of these is a lemma below.

- The history rule says a stored statement history is never shorter than before. With two or more cached rows of one
  period it can be (`HistoryMerge.DuplicatePeriodsShorten`); `HistoryMerge.NeverShorterIff` says exactly when.
- Merging is idempotent except that an answer stored as it came, out of order, is put in order by the second write
  (`HistoryMerge.IdempotentIff`).
- The bar write keeps older bars when a shorter answer agrees with the overlap. For 60-minute bars the refetch decision
  exempts the whole newest session, whose closes FMP corrects the next night, while the write exempts only the very last
  bar; a routine correction can therefore cost the older bars (`BarProtection.CorrectedSessionDropsHistory`, exactly
  when: `BarProtection.FullClampKeepsHistoryIff`).
- Retention is said to keep a row from ever snapping up to the ten-year tier. It does exactly while every request
  comes less than 1442 days after a prune (`BarWidth.RatchetsIff`): a top-up starts a week before the last stored bar.
- A freshly fetched ticker is said never to be flagged again at once as too narrow. It is flagged again, for one reason
  or another, in exactly three cases (`BarFreshness.RefreshSettlesIff`). One: nothing served or kept is as early as the
  window's first date, as when the window begins on a weekend, because the fetch reaches back only one day more than
  the check (`BarFreshness.WeekendStartIsReflagged`); the repeat is a top-up unless the first bar is more than ten days
  late (`BarFreshness.RepeatIsIncrementalIff`). Two: the newest completed bar is neither served nor kept, as for a halted
  ticker (`BarFreshness.HaltedIsReflagged`). Three: a daily write before 16:10 of its newest bar's date. On a 13:00 close
  the notes call that one extra refetch; it is one for every request until 16:10 (`BarFreshness.EarlyCloseIsReflagged`,
  `BarFreshness.AtOneOClock`).
- A statement row is stale right after its own write when there is no earnings date and the window is zero days or less
  (`StatementCache.StaleOnWriteIff`).
- The lockout is a half-open interval: whatever the limits, at the instant a lock ends one more password is checked
  (`LoginThrottle.ClosedIntervalHoldsOneMore`); closed intervals are safe exactly when they are shorter than the lockout
  (`LoginThrottle.ClosedIntervalIff`). The wait a blocked caller is told is cut to whole seconds, so it can end
  before the lock does (`LoginThrottle.RetryAfterReachesUnlock`).
- The weekday-only clocks agree with the calendar exactly when the session or bar they name exists, is over, and is the
  newest such (`TradingClock.DailyClocksAgreeIff`, `TradingClock.IntradayClocksAgreeIff`); so not on holidays, as their
  own description admits (`TradingClock.HolidayDisagrees`). On an early close the daily clocks part from the real close
  until 16:00 (`TradingClock.EarlyCloseDisagrees`), the 60m clocks for the half hour after a 13:00 close and for the rest
  of the day from 14:30 (`TradingClock.EarlyCloseBarsIff`).

## Model

| member | source | states |
|---|---|---|
| BarBasis.RunKeepsOneBasis | backend/clients/shared_bars_cache.py:563-700 | after any sequence of incremental, full, clamped, thin and failed refreshes and prunes, with restatements anywhere between, all stored bars of a ticker are on one price basis, provided a restatement moves every settled close compared (the seven days before the newest daily bar, the five dates before the newest 60m session) by more than half a percent and an answer that is laid over the table shares one of those with it or overwrites it whole |
| BarBasis.RefreshKeepsBasis | backend/clients/daily_bar_sources.py:316-342 | one refresh changes nothing or brings every stored bar to the basis of the answer that was stored; bases are never spliced |
| BarBasis.FullWriteOn | backend/clients/shared_bars_cache.py:436-488 | a replacing write leaves every row on the answer's basis, whether history protection turned it into an upsert or not |
| BarBasis.IncrementalWriteOn | backend/clients/daily_bar_sources.py:323-342 | an incremental answer that raises no alarm leaves every row on its basis, if it shares a compared bar or overwrites the table |
| BarBasis.RestatedIffBasisChanged | backend/clients/daily_bar_sources.py:350-368 | over those dates, settled and at least one of them shared, the overlap check fires if and only if the provider has moved to another basis, so an unrestated history never costs a full refetch |
| BarBasis.RestatedIff | backend/clients/daily_bar_sources.py:572-593 | a top-up counts as restated exactly when some close it shares, dated in the seven days before the newest daily bar or on the five dates before the newest 60m session, is off by more than half a percent |
| BarAnswers.AskedIff | backend/clients/shared_bars_cache.py:612-653 | a request is fetched for exactly when it is forced, nothing is held, the newest bar is older than the newest completed one or is of a session not over when anything was written, the first bar is later than the first of the days asked for, or 60m rows of another source can be replaced |
| BarAnswers.WidthIs | backend/clients/shared_bars_cache.py:122-140 | it asks for the days requested or, if that is more, for the widest of the seven (60m: five) tiers that the held span comes within ten days of, or the span itself when it is under twenty days |
| BarAnswers.DeliveredIs | backend/clients/daily_bar_sources.py:311-314 | of an answer exactly the completed bars are delivered, if there are any |
| BarAnswers.RefreshIs | backend/clients/daily_bar_sources.py:316-342 | what one request leaves in every case: an ample full answer where one is called for (forced, nothing held, another source's rows, a first bar more than ten days into the window, or a top-up that shows a moved bar), in the table's place or over it; a top-up that shows none; otherwise no change |
| BarAnswers.MovedIsRefetched | backend/clients/daily_bar_sources.py:595-632 | a top-up that shows a moved bar is never laid over the table: with a full answer of twenty bars that answer is stored, with any other nothing changes |
| BarAnswers.KeepsIff | backend/clients/shared_bars_cache.py:388-433 | a full answer is laid over the table instead of replacing it exactly when it starts more than ten days after what is held and after what was asked for (60m: and after the oldest date held), no 60m row is another source's, and no shared close before the newest bar is off by more than half a percent |
| BarAnswers.WindowIs | backend/clients/shared_bars_cache.py:521-553 | a caller is given exactly the bars held from the first of its days on, unchanged |
| BarAnswers.PrunedIs | backend/clients/shared_bars_cache.py:749-775 | a prune keeps exactly the last six years of daily bars and three of 60m ones, unchanged |
| BarAnswers.ExpiredIs | backend/clients/shared_bars_cache.py:749-775 | and the bars it counts are exactly those it takes away |
| BarAnswers.ServedIff | backend/clients/shared_bars_cache.py:655-697 | of a batch a ticker is served exactly when it is to be fetched, US-listed, the group is on, and what is called for came: an ample full answer, or a top-up |
| BarBasis.OverlapTells | backend/clients/shared_bars_cache.py:422-431 | over any range of settled shared bars, disagreement is exactly a change of basis |
| BarBasis.IncrementalSafeIff | backend/clients/daily_bar_sources.py:323-330 | an incremental write is safe whatever basis the provider is on if and only if its dates include a bar of the compared range or cover every stored bar |
| BarProtection.RefreshConserves | backend/clients/shared_bars_cache.py:468-488 | a refresh leaves the table, lays the answer over it, or replaces it; replacing happens only for an answer of at least twenty bars (or onto nothing) that reaches back far enough, disagrees with what is held, or meets legacy rows |
| BarProtection.DroppedIff | backend/clients/shared_bars_cache.py:468-488 | a step loses a stored bar exactly when it is a prune that reaches it, or a refresh served in full whose answer lacks it and has grounds to replace the table |
| BarProtection.LostOnlyWhenDropped | backend/clients/shared_bars_cache.py:563-700 | over any sequence of refreshes and prunes, a stored bar that is gone was dropped in exactly that way by one of them |
| BarProtection.ClampKeepsHistoryIff | backend/clients/shared_bars_cache.py:388-433 | a clamped answer that agrees with all settled bars shortens the table exactly when some bar of the newest session, other than the very last, disagrees |
| BarProtection.FullClampKeepsHistoryIff | backend/clients/shared_bars_cache.py:655-697 | the same for a whole request: a clamped full answer thick enough to be served shortens the table exactly when the newest session disagrees before its last bar, and then nothing but the answer is left |
| BarProtection.DailyClampKeepsHistory | backend/clients/shared_bars_cache.py:388-433 | a clamped daily answer agreeing with the settled bars loses no stored bar |
| BarProtection.CorrectedSessionDropsHistory | backend/clients/shared_bars_cache.py:388-488 | a 60m table of three full sessions and an older bar, and a clamped answer of twenty-one bars to the forced resync, after which the older bar is gone although nothing was restated and the refetch check sees no disagreement |
| BarBasis.IntradayRowsAreFmp | backend/clients/shared_bars_cache.py:641-697 | after any 60m write every stored row is tagged as FMP's, and a table that is all FMP's stays so |
| BarCache.SharedBarsCache.PreservedLookback | backend/clients/shared_bars_cache.py:122-140 | the loop over the tiers finds the widest tier the span reaches, or the span |
| BarCache.SharedBarsCache.WriteRows | backend/clients/shared_bars_cache.py:436-488 | the write puts exactly the new rows over, or in place of, that ticker's rows and touches no other table |
| BarCache.SharedBarsCache.SelectTickers | backend/clients/shared_bars_cache.py:618-653 | a ticker is chosen for fetching exactly when it is forced, empty, stale, provisional, too narrow or legacy, at the wider of the requested and the preserved width |
| BarCache.SharedBarsCache.FetchAndWrite | backend/clients/daily_bar_sources.py:316-342 | one ticker's fetch and write is the refresh step the basis and width theorems are about |
| BarCache.SharedBarsCache.RefreshAll | backend/clients/shared_bars_cache.py:655-697 | the fetching half of a batch, and who was not served |
| BarCache.SharedBarsCache.LoadFrames | backend/clients/shared_bars_cache.py:521-553 | each listed ticker's bars from the first date needed, absent where there are none |
| BarCache.SharedBarsCache.GetOrFetchBarsBatch | backend/clients/shared_bars_cache.py:563-700 | a batch refreshes every listed ticker once, in any order and with duplicates, each from its state before the batch, and nothing else; it returns each ticker's own window where anything is held, and names the US tickers that were to be fetched and not served |
| BarCache.SharedBarsCache.PruneOldBars | backend/clients/shared_bars_cache.py:749-775 | pruning removes, per interval, exactly the bars before the retention cutoff, and counts them; a dry run only counts |
| BarFreshness.RefreshSettlesIff | backend/clients/shared_bars_cache.py:612-639 | after any refresh that served something, the same request would fetch again exactly when the newest completed bar is neither served nor kept, or nothing served or kept is as early as the first date it needs, or the daily write came before 16:10 of the newest bar's date with nothing later written left beside it |
| BarFreshness.OneFetchPerSession | backend/clients/shared_bars_cache.py:626-655 | a table at rest stays at rest: until another session completes, no sequence of requests that need no more asks the provider for anything or changes a bar |
| BarFreshness.GoodRefreshLasts | backend/clients/shared_bars_cache.py:563-700 | so a refresh is the last of its session, for every sequence of requests that need no more, exactly when it caught up, reaches back far enough and was not written too soon |
| BarFreshness.EarlyCloseIsReflagged | backend/clients/shared_bars_cache.py:491-518 | every daily refresh made before 16:10 of the newest completed session's date is flagged again, and leaves nothing that was written later |
| BarFreshness.AtOneOClock | backend/clients/shared_bars_cache.py:491-518 | such a refresh: any full answer at 13:00 of an early close, however far back it reaches |
| BarFreshness.RepeatIsIncrementalIff | backend/clients/daily_bar_sources.py:316-325 | a repeated request is served in full exactly when the first stored bar is more than ten days into its window, whichever width the row was kept at |
| BarFreshness.WeekendStartIsReflagged | backend/clients/shared_bars_cache.py:612-639 | a first request whose window begins on two days without a bar is flagged again right after its own full fetch, whenever it is made |
| BarFreshness.HaltedIsReflagged | backend/clients/shared_bars_cache.py:312-325 | a first full answer without the newest session is stored and flagged again, however far back it reaches |
| BarWidth.OwnWidthIsIncremental | backend/clients/daily_bar_sources.py:316-325 | refetching a row at its own preserved width is always incremental, whatever it holds, unless legacy rows force a replacement |
| BarWidth.WidthNeverNarrows | backend/clients/shared_bars_cache.py:122-140 | along any sequence of unforced requests for no more than the row was kept at, unless an overlap shows a restatement, no bar is lost, the preserved width never falls, and no later request asks for less than it |
| BarWidth.WidthNeverRatchets | backend/clients/shared_bars_cache.py:327-351 | over any sequence of requests for at most five years, none 1442 days or more after the last prune, no request asks for more than the five-year tier although the stored span keeps growing |
| BarWidth.RunKeeps | backend/clients/shared_bars_cache.py:749-775 | along such a sequence nothing stored reaches further back than retention plus one overlap before the last prune |
| BarWidth.KeptRefresh | backend/clients/daily_bar_sources.py:316-342 | one refresh keeps the reach of the table within retention plus one overlap |
| BarWidth.RatchetsAt1442 | backend/clients/shared_bars_cache.py:122-140 | with 1442 days since the prune there is a table and a sequence after which ten years are requested |
| BarWidth.RatchetsIff | backend/clients/shared_bars_cache.py:327-351 | the width can never ratchet with prunes less than a given number of days before each request exactly when that number is at most 1442 |
| LongHistory.Store.Write | backend/clients/long_history_bars.py:105-126 | the write upserts or replaces exactly the given rows, and an empty answer changes nothing |
| LongHistory.Store.GetLongHistory | backend/clients/long_history_bars.py:174-216 | one view of a ticker: cached, cold fetch, top-up or replacement, and what is served |
| LongHistory.CompletedIs | backend/clients/long_history_bars.py:155-171 | of an answer exactly the bars up to the newest completed session count, if there are any |
| LongHistory.ViewIs | backend/clients/long_history_bars.py:174-216 | what one view leaves in every case: nothing changes while the group is off or the newest bar is of the newest completed session and was written when it was over; a cold store takes the full answer, a warm one a top-up with no moved close, or the full answer in its place |
| LongHistory.BehindIsToppedUp | backend/clients/long_history_bars.py:195-216 | a store that fell behind is up to date after a view, made once the session is over, whose top-up holds that session and shows no moved close |
| LongHistory.ViewKeepsBasis | backend/clients/long_history_bars.py:143-216 | a view changes nothing or leaves every bar on one answer's basis, and never empties a warm store |
| LongHistory.ViewKeepsHistory | backend/clients/long_history_bars.py:195-216 | while the provider stays on the stored basis and settled closes hold still, no view loses a day |
| LongHistory.ViewsKeepOneBasis | backend/clients/long_history_bars.py:174-216 | from an empty store, over any sequence of views, all ten years are on one basis |
| IntradayPaging.FetchPages | backend/clients/daily_bar_sources.py:537-570 | the requests made: at most forty, the first up to today, each next up to the date of the oldest bar before, going on only past strictly older bars more than six days after the start; and what each kind of last answer makes of them, a failed page nothing at all |
| IntradayPaging.PagesHaveNoHole | backend/clients/daily_bar_sources.py:537-570 | whatever the page sizes and wherever paging stops (done, empty page, no list, no progress, page cap), the rows returned are every provider bar from the oldest returned to today; all of them when it stopped for want of more, if every page reaches past its newest day |
| IntradayPaging.FetchFrame | backend/clients/daily_bar_sources.py:537-570 | what is handed on is exactly the completed bars of regular trading hours on weekdays among the rows, each once and without a hole; nothing exactly when there are none or a page failed |
| IntradayPaging.PageExtends | backend/clients/daily_bar_sources.py:556-566 | an older page continues exactly where the rows so far begin |
| IntradayPaging.TileWindows | backend/data/chart_data.py:509-517 | the windows of an uncached chart cover every date of the lookback, share only boundary dates, and are at most ninety days wide |
| TradingClock.CalendarCompletedTradingDate | backend/clients/shared_bars_cache.py:174-187 | the reversed scan finds the last closed session of the fortnight, or fails |
| TradingClock.CalendarIntradayBarStart | backend/clients/shared_bars_cache.py:259-282 | the nested scan finds the last elapsed slot of the fortnight, or fails |
| TradingClock.WeekdayOnlyCompletedTradingDate | backend/clients/shared_bars_cache.py:153-168 | the fallback daily clock, tied to the function the agreement lemma is about |
| TradingClock.WeekdayOnlyIntradayBarStart | backend/clients/shared_bars_cache.py:216-253 | the fallback 60m clock, tied to the function the agreement lemma is about |
| TradingClock.DailyClockIsNewest | backend/clients/shared_bars_cache.py:174-187 | on any calendar the daily clock names the newest session that has closed, and fails only when none has in the last fortnight |
| TradingClock.DailyClockMonotone | backend/clients/shared_bars_cache.py:174-187 | a later reference never names an earlier session |
| TradingClock.IntradayClockIsNewest | backend/clients/shared_bars_cache.py:259-282 | on any calendar, half days included, the 60m clock names the newest slot that has fully elapsed |
| TradingClock.IntradayClockMonotone | backend/clients/shared_bars_cache.py:259-282 | a later reference never names an earlier slot |
| TradingClock.DailyClocksAgree | backend/clients/shared_bars_cache.py:153-187 | on a Monday-Friday 09:30-16:00 calendar the calendar and weekday-only daily clocks agree at every reference time |
| TradingClock.IntradayClocksAgree | backend/clients/shared_bars_cache.py:216-282 | and so do the two 60m clocks |
| TradingClock.DailyClocksAgreeIff | backend/clients/shared_bars_cache.py:153-187 | on any calendar the daily clocks agree exactly when the day the weekday clock names is a session that has closed and no later session has |
| TradingClock.IntradayClocksAgreeIff | backend/clients/shared_bars_cache.py:216-282 | on any calendar the 60m clocks agree exactly when the bar the weekday clock names is a slot that has elapsed and no later slot has |
| TradingClock.HolidayDisagrees | backend/clients/shared_bars_cache.py:153-158 | on any day without a session, as long as the weekday clocks name it, they differ from the calendar's |
| TradingClock.EarlyCloseDisagrees | backend/clients/shared_bars_cache.py:159-187 | from the real close of a short session until 16:00 the calendar clock names today and the weekday clock an earlier day |
| TradingClock.EarlyCloseBarsIff | backend/clients/shared_bars_cache.py:216-282 | on a day that closes at 13:00, from 10:30 on, the 60m clocks agree exactly before 13:00 and from 13:30 to 14:30 |
| TokenBucket.Bucket.constructor | backend/clients/fmp_client.py:85-91 | a new bucket is full, holds at least one token and refills at the per-minute rate |
| TokenBucket.Bucket.Acquire | backend/clients/fmp_client.py:93-103 | one acquire: the new state and the due time or refusal |
| TokenBucket.AcquireRefinesSchedule | backend/clients/fmp_client.py:93-103 | the token form takes every decision that a virtual schedule of emission intervals takes, at the same instants |
| TokenBucket.DueIsEarliestConforming | backend/clients/fmp_client.py:80-103 | after any mix of granted and refused calls, the next call is due at the earliest instant that keeps every stretch of grants within capacity + rate * time, and is refused exactly when that is more than max_wait away |
| TokenBucket.RunConforms | backend/clients/fmp_client.py:80-103 | any k consecutive grants released between two instants satisfy k <= capacity + rate * elapsed, and releases come out in call order |
| TokenBucket.DebtBounded | backend/clients/fmp_client.py:99-101 | reservations outstanding never exceed rate * max_wait |
| TokenBucket.RefusedCallsLeaveNoTrace | backend/clients/fmp_client.py:81-83 | deleting any of the refused calls from a history changes no release time |
| TokenBucket.Pacer.Wait | backend/clients/daily_bar_sources.py:233-241 | one paced start and the next free start |
| TokenBucket.PacerIsUnitBucket | backend/clients/daily_bar_sources.py:223-241 | one wait of the pacer is one step of a bucket with room for a single token |
| TokenBucket.StartsAreSpaced | backend/clients/daily_bar_sources.py:223-241 | over any run of waits, the i-th and j-th starts are at least j - i intervals apart and none is earlier than it was asked for |
| TokenBucket.StartsAreEarliest | backend/clients/daily_bar_sources.py:233-241 | each start is the later of the instant asked for and an interval after the start before it, so none is later than it has to be |
| TokenBucket.NoIntervalNoDelay | backend/clients/daily_bar_sources.py:233-241 | a pacer without an interval never delays |
| AuthBreaker.Client.ResetAuthBreaker | backend/clients/fmp_client.py:250-252 | clears the failure count and the pause |
| AuthBreaker.Client.NoteStatus | backend/clients/fmp_client.py:262-280 | the bookkeeping for one answer |
| AuthBreaker.NotedByStatus | backend/clients/fmp_client.py:262-280 | for every status: the count goes up exactly for 401 and 403, and from the threshold on they pause requests for a cooldown; 402 and anything below 400 clear both fields; any other status changes nothing |
| AuthBreaker.Client.Send | backend/clients/fmp_client.py:354-377 | the retry loop: what is returned, the breaker state left, and the number of requests counted |
| AuthBreaker.SendOutcome | backend/clients/fmp_client.py:354-377 | a request costs at most three calls, each past the breaker and the limiter and all but the last answered 429; it ends for exactly one of four reasons, each with its own result, hands back the last answer, and returns a 429 only after three |
| AuthBreaker.SendIsRun | backend/clients/fmp_client.py:354-377 | a request's calls are tries of the run like any others, so the bounds on runs cover requests and their retries |
| AuthBreaker.StateMatchesLog | backend/clients/fmp_client.py:246-280 | the breaker's two fields are determined by the log of answers: it is paused exactly when the failures since the last accepted key reach the threshold, until cooldown after the last of them |
| AuthBreaker.SentIff | backend/clients/fmp_client.py:246-280 | after any run a try goes out exactly when the refusals since the key was last accepted, 401s and 403s, are short of the threshold or the last of them is at least a cooldown old |
| AuthBreaker.FailuresSpaced | backend/clients/fmp_client.py:263-271 | from the threshold-th failure on, refused requests are sent at least a cooldown apart |
| AuthBreaker.AuthFailureBound | backend/clients/fmp_client.py:246-280 | while no answer proves the key works, the requests answered 401/403 and sent within a duration D number at most threshold + floor(D / cooldown), whatever else is answered between them and however long each waits between check and send |
| AuthBreaker.AllRefusedAllCounted | backend/clients/fmp_client.py:246-280 | when every answer is 401/403 that bound covers every request sent |
| DataGroups.Gate.MarkRestricted | backend/core/data_groups.py:678-686 | restricts one group, keeping the date of an earlier restriction |
| DataGroups.Gate.ClearRestricted | backend/core/data_groups.py:689-696 | clears a plan restriction and nothing else |
| DataGroups.Gate.MarkVariantRestricted | backend/core/data_groups.py:699-723 | records a variant once, and says whether it was new |
| DataGroups.Gate.ClearVariant | backend/core/data_groups.py:726-740 | removes exactly that variant, and says whether it existed |
| DataGroups.Gate.SetFmpPlan | backend/core/data_groups.py:657-666 | sets a plan of the list and refuses any other |
| DataGroups.Gate.UpdateGroup | backend/core/main.py:348-358 | edits one known group, and refuses a tier outside the list whole |
| DataGroups.Gate.RecordSuccess | backend/core/data_groups.py:767-789 | the throttled reset of the failure run |
| DataGroups.Gate.RecordFailure | backend/core/data_groups.py:792-809 | one more failure, failing from the third on |
| DataGroups.Gate.HandleVariantRestriction | backend/clients/fmp_client.py:385-407 | a 402 in a variant group: the canary replay and what it marks |
| DataGroups.Gate.HandlePlanRestriction | backend/clients/fmp_client.py:409-429 | a 402 elsewhere: the swapped canary and what it marks |
| DataGroups.Gate.Fetch | backend/clients/fmp_client.py:293-352 | one gated request: state, result and every call made, retries and canary included |
| GateAnswers.ResultIff | backend/clients/fmp_client.py:293-352 | data comes back exactly when the group exists, both switches are on, the plan includes its tier, neither the group nor the variant is restricted, and the answer is a usable one with a status below 400; a group that is off and a restricted variant of a live group have results of their own; everything else is raised |
| GateAnswers.CanaryCalledIff | backend/clients/fmp_client.py:385-429 | a canary is called exactly after a 402 of a request that is not its own canary: for a variant group the bare variant for the canary symbol, else the same request about the canary |
| GateAnswers.OwnCanaryIff | backend/clients/fmp_client.py:147-163 | a variant's request is its own canary when it names no symbol, or the canary's in any spelling of case |
| GateAnswers.GroupCanaryIs | backend/clients/fmp_client.py:147-163 | outside the variant groups the canary swaps the symbol, else the symbols, else the query |
| GateAnswers.VariantStored | backend/core/data_groups.py:699-723 | a new variant restriction stores its endpoint, its period and limit with the canary symbol, and its instant; nothing alters a stored one |
| GateAnswers.RestrictionDated | backend/core/data_groups.py:678-686 | a group restriction is dated by the answer that brought it and keeps that date |
| GateAnswers.EventsKeepToTheirOwn | backend/core/data_groups.py:657-740 | no event touches another group, and a group's own switch and tier change only by the user's edits |
| GateAnswers.SwitchesAre | backend/core/data_groups.py:657-666 | the master switch and the plan change only by the user, to what is given, and a plan off the list is not taken |
| GateAnswers.EditIs | backend/core/main.py:348-358 | an edit gives exactly what it names, and one with an unknown tier gives nothing |
| GateAnswers.StoppedOrFailed | backend/clients/fmp_client.py:317-352 | a request its own retry loop stops leaves the state alone; a transport error is one more failure |
| DataGroups.Gate.ProbeGroup | backend/clients/fmp_client.py:431-456 | re-probing a group |
| DataGroups.Gate.ProbeVariant | backend/clients/fmp_client.py:458-481 | re-probing a variant with its own replay |
| DataGroups.ReplayKeepsKey | backend/core/data_groups.py:699-718 | the stored replay of a variant is a request of that very variant |
| DataGroups.KeyInjective | backend/core/data_groups.py:316-320 | two requests have the same variant key if and only if they ask the same endpoint for the same period and limit |
| GateAnswers.KeyFormat | backend/core/data_groups.py:316-320 | a variant's key is its endpoint, then the limit, then the period |
| DataGroups.LiveIff | backend/core/data_groups.py:443-540 | a group is live exactly when it exists, both switches are on, the plan includes its tier and no restriction is recorded |
| GateAnswers.OnIff | backend/core/data_groups.py:443-540 | with the plans by name: Starter groups need any plan, Premium ones Premium or Ultimate, Ultimate ones Ultimate |
| GateAnswers.ReasonIff | backend/core/data_groups.py:526-540 | why a group is off: the master switch, its own switch (or no such group), its tier, or a plan restriction, in that order |
| DataGroups.RunIsSound | backend/core/data_groups.py:678-809 | in every reachable state a restriction is dated exactly while it lasts, a group is failing exactly while its stored failure count is three or more, a variant group is never plan-restricted, every variant sits under the key of its own replay, and the plan is a known one |
| DataGroups.CountMatchesLog | backend/core/data_groups.py:767-809 | the stored failure count is the number of failures at the end of the group's log of live calls: key, plan and rate problems leave no entry, and only usable data or a cleared restriction resets it |
| DataGroups.FailingIff | backend/core/data_groups.py:767-809 | an unrestricted group is failing exactly when the last three entries of that log are failures |
| DataGroups.UnknownTierNeverLive | backend/core/data_groups.py:443-447 | in every reachable state a group whose tier is not on the list is off |
| DataGroups.VariantChangesIff | backend/clients/fmp_client.py:385-492 | a variant becomes restricted exactly by a live request of that variant whose 402 the canary confirms, and stops being restricted exactly by a good answer to its own replay or by the user dropping it |
| DataGroups.GroupChangesIff | backend/clients/fmp_client.py:409-507 | the same for whole groups outside the variant groups |
| DataGroups.RestrictionIsPerVariant | backend/clients/fmp_client.py:307-315 | a restricted variant is answered without a call, and for every request of another variant the result, the calls made and what is stored are what they would have been without the restriction |
| DataGroups.RequestsSent | backend/clients/fmp_client.py:293-352 | nothing is sent or changed for a gated request; otherwise the calls of the request itself, and only after a 402 those of one canary, of the same variant; a request stopped by the client's own protection changes nothing |
| DataGroups.CallsBounded | backend/clients/fmp_client.py:293-430 | with the retry loop composed in: at most six calls for one request, none while the breaker is open, and a request stopped between its retries leaves the state alone |
| HistoryMerge.NeverShorterIff | backend/core/history_merge.py:99-133 | for any cache and any answer, the stored history gets shorter exactly when more cached rows than fresh ones carry the fresh answer's periods |
| HistoryMerge.DuplicatePeriodsShorten | backend/core/history_merge.py:125-131 | a cache of two rows of one period answered with one row of it becomes one row |
| HistoryMerge.DistinctNeverOverflows | backend/core/history_merge.py:125-131 | with one row per period the store cannot get shorter |
| HistoryMerge.IdempotentIff | backend/core/history_merge.py:99-133 | merging the same answer twice equals merging it once, except exactly for an out-of-order answer that was stored as it came |
| HistoryMerge.TakenOrKept | backend/core/history_merge.py:99-123 | nothing held, the answer is taken as it came; an answer that is no list, is empty or has an element that is no object is refused and reported as such; with an undated row on either side the longer list wins, the answer on a tie |
| HistoryMerge.MergedRows | backend/core/history_merge.py:125-131 | with dates on every row the whole answer is stored, newest first, and beside it only held rows of periods it lacks, as many as fit, none left out that is newer than one kept |
| HistoryMerge.MergedReport | backend/core/history_merge.py:132-133 | it is reported as a merge exactly when something is stored beside the answer, and as clamped exactly when the answer is shorter than what was held and all of it is newer than some held row |
| HistoryRuns.StoreIsNewest | backend/core/cache.py:37-97 | after any sequence of full, clamped, empty and error answers the store is exactly the newest M periods ever returned, M the longest answer so far, newest first, each with the row of the last answer that contained it |
| HistoryRuns.NewestIsUnique | backend/core/history_merge.py:99-133 | that description fits only one list of rows |
| HistoryRuns.StoreNeverShrinks | backend/core/history_merge.py:129-131 | the store's length is the larger of its old length and the answer's |
| HistoryRuns.ReportMatchesStore | backend/core/history_merge.py:132-133 | an answer is reported clamped, and merged, exactly when more is stored than it had |
| StatementCache.Store.WriteCacheRow | backend/core/cache.py:37-97 | what is stored and handed back |
| StatementCache.Store.FetchOrServeCached | backend/core/cache.py:138-160 | when a failed or unavailable fetch is answered from the cache |
| StatementCache.Store.GetOrFetch | backend/core/cache.py:163-194 | one read under a flat window |
| StatementCache.Store.GetOrFetchEarningsAware | backend/core/cache.py:224-253 | one read under the earnings rule |
| StatementCache.Store.ForceFetch | backend/core/cache.py:256-292 | one forced read |
| StatementReads.FlatFetchIff | backend/core/cache.py:163-194 | under a flat window a call writes exactly when it may fetch, gets an answer, and there is no row or the row is at least the window's days old |
| StatementReads.FallbackFetchIff | backend/core/cache.py:197-253 | without an earnings date the same under the fallback days, and for a marked row |
| StatementReads.EarningsReadFetchIff | backend/core/cache.py:197-253 | with one, for no row, a marked one, or one from before the midnight two days after the date once that has come |
| StatementReads.ForcedFetchIff | backend/core/cache.py:256-292 | a forced call writes exactly when its group is live and it gets an answer |
| StatementReads.FetchedRead | backend/core/cache.py:37-97 | a fetch stores the answer, merged for a history key, stamps it and hands it back |
| StatementReads.UnfetchedRead | backend/core/cache.py:163-292 | a call that does not fetch leaves the row and hands back what it holds, however old; nothing, or an error when forced, without a row |
| StatementReads.FailedRead | backend/core/cache.py:138-160 | a failed fetch leaves the row; an unavailable variant is answered from it, an error only while failures are tracked, and without a row either is raised |
| StatementCache.Store.ClearTickerCache | backend/pipeline/refresh.py:37-70 | the Refresh button: a history row is kept and marked stale, any other is deleted |
| StatementCache.Store.PruneByAge | backend/pipeline/prune_cache.py:78-104 | the age prune deletes an old row unless its ticker is spared or a Refresh has marked it |
| StatementReads.RefreshIs | backend/pipeline/refresh.py:37-70 | a Refresh that is not blocked leaves a history row's contents, marked, and nothing of any other row |
| StatementReads.PruneIs | backend/pipeline/prune_cache.py:78-104 | an age prune deletes exactly a row that is older than the retention, not marked and not spared |
| StatementCache.CacheOnlyKeepsRow | backend/core/cache.py:178-191 | over any sequence of cache-only and group-off calls the row never changes, and each is served it |
| StatementCache.FetchesBounded | backend/core/cache.py:197-253 | over any sequence of calls, refreshes and deletions, one earnings date costs at most one live fetch from a valid row (two from none, while the date's cutoff is ahead), and one more for each time the row is marked or deleted |
| StatementCache.StaleOnWriteIff | backend/core/cache.py:197-221 | read at the instant it was written, a row is stale exactly without an earnings date and with a window of no days, or at the invalidation mark |
| StatementCache.OneFetchPerEarningsDate | backend/core/cache.py:197-253 | two live fetches for one earnings date, the first replacing a valid row, have a refresh or a deletion of the row between them |
| StatementCache.EarningsFetchIff | backend/core/cache.py:197-253 | with an earnings date, a valid row is fetched anew exactly when the midnight two days after that date lies between its last fetch and now |
| StatementCache.FlatWindowSpacing | backend/core/cache.py:163-194 | a flat-window fetch inside its own window of an earlier write has a refresh or a deletion of the row between them |
| StatementCache.RowIsMergedHistory | backend/core/cache.py:37-97 | for a history key the row is the merge of the answers written since it was last deleted, whatever mix of calls, refreshes and prunes is made |
| StatementCache.CacheServesNewest | backend/core/cache.py:37-97 | so the row always holds the newest periods returned since it was last deleted |
| StatementCache.MarkedIsStale | backend/core/history_merge.py:69-71 | a marked row is stale to every freshness rule except a flat window that reaches back to the mark |
| StatementCache.RefreshKeepsHistory | backend/pipeline/refresh.py:37-70 | after a Refresh of a history row, and any prunes, the next call that may fetch does, and whatever proper answer it gets the row holds the newest M periods ever returned, M no less than before |
| LoginThrottle.LoginService.SourceRetryAfter | backend/core/auth.py:267-277 | the window after the check, and the wait if it is full |
| LoginThrottle.LoginService.RecordSourceFailure | backend/core/auth.py:279-283 | one failure appended, the table cleared when it is full of other sources |
| LoginThrottle.LoginService.NameRetryAfter | backend/core/auth.py:285-290 | the wait while a name is locked |
| LoginThrottle.LoginService.RecordNameFailure | backend/core/auth.py:292-305 | the in-memory counter's next state, and whether it locked |
| LoginThrottle.LoginService.Login | backend/core/auth.py:311-370 | one login: status, event, wait and the new tables |
| LoginOutcome.SignedInIff | backend/core/auth.py:311-370 | a login succeeds exactly when its source has fewer than login_source_max_failures failures within the window, the name is not empty and has an account, the account is active and not locked, and the password is right |
| LoginOutcome.SuccessClears | backend/core/auth.py:347-356 | a success leaves that account with no failures and no lock, and every other account and name as it was |
| LoginOutcome.SuccessRecordsNothing | backend/core/auth.py:267-283 | and records nothing against its source |
| LoginOutcome.FullSourceIsRefused | backend/core/auth.py:317-320 | a source with its fill is refused with 429, told to wait for its oldest failure in the window to run out, and nothing else changes |
| LoginOutcome.RefusalIff | backend/core/auth.py:322-370 | any other refusal is 429 with the end of the lock exactly while the name is locked, else 401; lockout exactly for the counted failure that reaches the limit, and a disabled account's password never counts |
| LoginOutcome.RefusalRecords | backend/core/auth.py:279-283 | every such refusal is recorded against its source |
| LoginOutcome.RefusalTouches | backend/core/auth.py:322-370 | and touches no other account, no counter unless it counts, and only the table that keeps the name's count |
| LoginOutcome.EveryRunKeeps | backend/core/auth.py:267-305 | every run of logins leaves the state those results ask for: windows in order, locks that start afresh, at most 5000 keys in either table |
| LoginThrottle.CountersBisimilar | backend/core/auth.py:285-370 | a name with no account and an active account, fed the same wrong passwords at the same times with any other logins between, give the same status, event and retry-after at every step, through lock, expiry and relock |
| LoginThrottle.SourceWindow | backend/core/auth.py:267-283 | a source's deque is its recorded failures less expired ones from the front, over any sequence of logins |
| LoginThrottle.SourceRateBounded | backend/core/auth.py:267-283 | a source records at most the configured number of failures in any window |
| LoginThrottle.CheckLeavesUnexpired | backend/core/auth.py:267-277 | after a check the deque holds exactly the failures that have not expired |
| LoginThrottle.SourceBlockedIff | backend/core/auth.py:267-277 | a source is blocked exactly while its last login_source_max_failures recorded failures all lie within the window, and is told to wait for the first of them to expire |
| LoginThrottle.ChecksBounded | backend/core/auth.py:335-370 | with no success between, an account undergoes at most login_max_failures password checks in any half-open interval of the lockout's length, from however many sources |
| LoginThrottle.CountsUpToLock | backend/core/auth.py:357-370 | and the lock is not early: from a clean count wrong passwords are only counted up to the last allowed one, which locks for the lockout from then on |
| LoginThrottle.ClosedIntervalHoldsOneMore | backend/core/auth.py:335-370 | for every limit there are logins in a closed interval of that length with one check more |
| LoginThrottle.ClosedIntervalIff | backend/core/auth.py:335-370 | no closed interval of length d ever holds more than login_max_failures checks of an account exactly when d is shorter than the lockout |
| LoginThrottle.RetryAfterReachesUnlock | backend/core/auth.py:277-290 | the wait told is within a second of the lock's end, and coming back then finds it gone exactly when whole seconds, or no more than one, remained |
| Sessions.SessionStore.CreateSession | backend/core/auth.py:188-204 | the new row, with every session past its lifetime dropped |
| Sessions.SessionStore.ResolveSession | backend/core/auth.py:213-242 | one look at a session, with housekeeping that may fail |
| Sessions.StoredIff | backend/core/auth.py:213-242 | what a look leaves: nothing of a session that is not honoured, the present as stamp when the old one is five minutes old, else the row; and no change when the write fails |
| Sessions.SessionEndsOnTime | backend/core/auth.py:213-230 | nobody is signed in past the absolute lifetime or an idle timeout after the last valid visit, even when the stamp cannot be written |
| Sessions.SessionHonouredInTime | backend/core/auth.py:224-230 | a session in use is honoured up to the touch interval short of the idle timeout |
| Sessions.EndedStaysEnded | backend/core/auth.py:224-226 | a session that has run out stays out even if it cannot be deleted |
| PasswordFormat.Base64RoundTrip | backend/core/passwords.py:44-49 | unpadded URL-safe base64 (sections 5 and 3.2 of RFC 4648) decodes to the same bytes at every length, and never contains the field separator |
| PasswordFormat.DigitsRoundTrip | backend/core/passwords.py:61-67 | a rendered number parses back |
| PasswordFormat.StoredRoundTrip | backend/core/passwords.py:56-72 | a rendered string parses to exactly its parameters, salt and key if the first is a power of two from 2 to 1048576, the second 1 to 32 and the third 1 to 16, and to nothing otherwise |
| PasswordFormat.VerifyIff | backend/core/passwords.py:75-84 | a stored string accepts exactly the passwords that derive the same key, and none when its parameters are out of range |
| PasswordFormat.RehashIff | backend/core/passwords.py:87-92 | a stored string in range asks to be rehashed exactly below 32768 and 8, or when its key is not 32 bytes; out of range never |
| PasswordFormat.ParseIff | backend/core/passwords.py:61-72 | of strings without the stray characters the code's parsers skip, exactly those are accepted that are the scheme, three numbers in range and two byte strings between five separators, and each is taken to say them |
| PasswordFormat.RenderIs | backend/core/passwords.py:56-58 | the stored string spelled out |
| PasswordFormat.LettersAre | backend/core/passwords.py:44-45 | three bytes are written six bits at a time, the highest first (section 4 of RFC 4648) |
| PasswordFormat.B64Is | backend/core/passwords.py:44-45 | every group of three so, a last byte or two as two letters or three, without padding |
| PasswordFormat.DigitsAre | backend/core/passwords.py:56-58 | numbers are written in tens without leading zeros |
| BodyLimit.Exchange.CountingReceive | backend/core/body_limit.py:66-77 | one message towards the app |
| BodyLimit.Exchange.GuardedSend | backend/core/body_limit.py:79-85 | one message from the app |
| BodyLimit.EveryRun | backend/core/body_limit.py:62-85 | in every interleaving, either everything so far has passed unchanged both ways, or the body was too large, the app was handed what arrived before the message that exceeded the limit and after it only disconnects, and the client got the 413 after no response start and nothing since |
| BodyLimit.AppSeesAtMostLimit | backend/core/body_limit.py:66-77 | the app is handed at most the limit before its response starts |
| BodyLimit.OneResponse | backend/core/body_limit.py:66-85 | the 413 (section 15.5.14 of RFC 9110) and the app's response never both reach the client |
| BodyLimit.RefusedIff | backend/core/body_limit.py:71-76 | a request is refused exactly when, at some moment, more than the limit has arrived and the response has not started |
| BodyLimit.WithinLimitUntouched | backend/core/body_limit.py:66-85 | a request within the limit passes through unchanged |
| FairValueGaps.DetectFvgs | backend/analysis/fvg.py:33-68 | the loop over candidates returns the gaps of the frame |
| FairValueGaps.GapsExact | backend/analysis/fvg.py:33-68 | the gaps are exactly the third candles that lie wholly above or below the first by more than the multiple of their own positive ATR, in order, each between those two candles and ended by the first close beyond its far side |
| FairValueGaps.BatchIsStream | backend/analysis/fvg.py:33-68 | the batch scan equals a one-pass scan that opens gaps at the third candle and closes each at its first far-side close |
| FairValueGaps.AppendOnlyContinues | backend/analysis/fvg.py:62-67 | appending bars changes no closed gap, removes none, and can only close an open one with a new bar |
| FairValueGaps.NeverBothSides | backend/analysis/fvg.py:56-61 | a candle never leaves a gap on both sides, so reading the bullish one first loses nothing |
| EventBuckets.BucketEvents | backend/data/chart_data.py:431-463 | every shown event is in exactly one bucket, its bar's, in date order |
| EventBuckets.BucketsAre | backend/data/chart_data.py:431-463 | a bucket holds, in date order, exactly the events dated on or after its bar, before any later bar, not after today, and not after the last bar's date or for weekly bars its Sunday |
| EventBuckets.BucketCounts | backend/data/chart_data.py:431-463 | each as often as the feed lists it |
| EventBuckets.OneBucketEach | backend/data/chart_data.py:431-463 | an event is in a bucket exactly when it is dated from the first visible bar to that last day, and in one only |
| EventBuckets.SumAmounts | backend/data/chart_data.py:489 | the sum of a bucket |
| EventBuckets.DividendMarkers | backend/data/chart_data.py:481-491 | one marker per bucket, in bar order |
| EventBuckets.MarkerBarIsGreatest | backend/data/chart_data.py:334-351 | an event's bar is the greatest visible one not after it; only an event before the first bar has none |
| EventBuckets.DividendsConserved | backend/data/chart_data.py:481-491 | the markers' amounts add up to those of the events between the first visible bar and the cutoff, in whatever order the feed lists them |
| EventBuckets.MarkersFaithful | backend/data/chart_data.py:481-491 | there is one marker for each visible bar with events, strictly increasing in time, dated by the earliest of them and with exactly their sum |

## Left out

- HTTP, SQLite, pandas, asyncio and scrypt: answers, tables, frames, due times and the key derivation are values and parameters.
- Floating-point rounding and not-a-number readings: prices, tokens and rates are reals, an unusable ATR reading is an absent one.
- The columns of a bar other than its close, volume and the row's ticker tags, which no decision modelled here reads.
- Daylight saving: clocks and bar times are Eastern wall time.
- The real exchange calendar (`helpers/trading_calendar.py` is not part of this model): the session list is a parameter, and so is whether the calendar or the weekday clock is asked.
- Concurrent requests: steps are atomic, and the breaker's bound is about requests made one after another, as the count it bounds is. `FMPClient._pace` only delays.
- Two overlapping receive calls of one request in the body limit (one is outstanding at a time in the server interface), and the up-front refusal by declared length.
- IntradayPaging.FetchFrame: the prices of the bars, the dropping of rows without a close, and the short-session report are not in it; a failed page is one outcome whatever its cause.
- StatementCache.RefreshKeepsHistory: the choice of the tracked tickers that an age prune spares, and of the groups that block a Refresh, are parameters.
- HistoryRuns.StoreIsNewest: its answers have distinct dates and are newest-first prefixes of a growing timeline, or are empty, missing or not lists; a list with elements that are not objects is covered by HistoryMerge.NeverShorterIff and HistoryMerge.IdempotentIff only.
- LoginThrottle.LoginService.Login: names arrive normalised; the dummy verification, the new hash for a weak stored one and the last-login stamp are not kept.
- LoginThrottle.CountersBisimilar: assumes the name table is not cleared, which happens when 5000 names are tracked; LoginThrottle.LoginService models the clearing.
- LoginThrottle.SourceWindow: assumes the source table is not cleared and the limits are at least one; with a limit of zero the code indexes an emptied window.
- DataGroups.KeyInjective: for endpoints without `?` and values without `&`, as the client writes them.
- BarCache.SharedBarsCache.GetOrFetchBarsBatch: the unserved tickers are a set; the order in which the original lists them is not kept.
- DataGroups.Gate.Fetch: the bookkeeping nothing decides on (last success, last error, labels, the key-problem banner, the five-second snapshot shared between processes) is not kept, and a write that fails is not modelled.
- PasswordFormat.ParseIff: weaker than the code's reader, which also takes the signs, spaces and underscores of number parsing and skips stray characters in base64; those strings, which are never rendered, are read as errors here.
- PasswordFormat.StoredRoundTrip: the signs, spaces and underscores that number parsing would also accept, and the stray characters that base64 decoding would skip, are read as errors; no rendered string has them.
- Sessions.SessionStore.ResolveSession: the token hash and its length limit.
- EventBuckets.DividendMarkers: the earnings and entry-signal markers reuse the same buckets and are not repeated.
- Administration of accounts and sessions (setting passwords, disabling users, revoking), the clamp log, the job reports, routing, configuration, migrations, and the screens: one-branch bookkeeping that would add only easy members.
