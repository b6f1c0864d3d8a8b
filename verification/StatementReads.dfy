// What a read through the statement cache comes to: whether it fetches, what it hands back and what
// it leaves stored, for each way of reading and each outcome, said in instants alone.
module StatementReads {
  import opened Options
  import opened HistoryMerge
  import opened HistoryRuns
  import opened StatementCache

  // Microseconds in a day.
  const MICROS := 86_400_000_000

  // ---- when a call fetches ----

  // A flat window: a call that may fetch does exactly when there is no row or the row is as old as
  // the window.
  lemma FlatFetchIff(history: bool, row: Option<CacheRow>, c: Call)
    requires c.Get?
    ensures Step(history, row, c).wrote
       <==> && c.live && !c.cacheOnly && c.outcome.Answer?
            && (row.None? || c.now - row.value.fetchedAt >= c.stalenessDays * MICROS)
  {
  }

  // Without an earnings date the same, and also when the row is marked stale.
  lemma FallbackFetchIff(history: bool, row: Option<CacheRow>, c: Call)
    requires c.GetEarnings? && c.earnings.None?
    ensures Step(history, row, c).wrote
       <==> && c.live && !c.cacheOnly && c.outcome.Answer?
            && (|| row.None? || row.value.fetchedAt <= 0
                || c.now - row.value.fetchedAt >= c.fallbackDays * MICROS)
  {
  }

  // With one, when there is no row, a marked one, or one from before the midnight two days after
  // that date, once that midnight has come.
  lemma EarningsReadFetchIff(history: bool, row: Option<CacheRow>, c: Call, date: int)
    requires c.GetEarnings? && c.earnings == Some(date)
    ensures Step(history, row, c).wrote
       <==> && c.live && !c.cacheOnly && c.outcome.Answer?
            && (|| row.None? || row.value.fetchedAt <= 0
                || row.value.fetchedAt < (date + 2) * MICROS <= c.now)
  {
    if row.Some? && row.value.fetchedAt > 0 {
      EarningsFetchIff(history, row.value, c, date);
    }
  }

  // A forced read, always.
  lemma ForcedFetchIff(history: bool, row: Option<CacheRow>, c: Call)
    requires c.Force?
    ensures Step(history, row, c).wrote <==> c.live && c.outcome.Answer?
  {
  }

  // ---- what is handed back and left stored ----

  // A fetch that succeeds replaces the row: by the answer, or for a history key by its merge with
  // what was held; stamped with the clock of the decision for a flat read, of the write otherwise;
  // and what is stored is what the caller gets.
  lemma FetchedRead(history: bool, row: Option<CacheRow>, c: Call)
    requires Step(history, row, c).wrote
    ensures c.outcome.Answer?
    ensures var r := Step(history, row, c);
      var held := if row.Some? then row.value.body else Missing;
      var stored := if history then MergeHistory(held, c.outcome.body).rows else c.outcome.body;
      && r.row == Some(CacheRow(if c.Get? then c.now else c.writtenAt, stored))
      && r.served == Payload(stored)
  {
  }

  // The row answers the call as it is.
  predicate StillGood(row: Option<CacheRow>, c: Call) {
    && row.Some?
    && match c
       case Get(now, days, _, _, _, _) => now - row.value.fetchedAt < days * MICROS
       case GetEarnings(now, days, None, _, _, _, _, _) =>
         row.value.fetchedAt > 0 && now - row.value.fetchedAt < days * MICROS
       case GetEarnings(now, _, Some(date), _, _, _, _, _) =>
         row.value.fetchedAt > 0 && !(row.value.fetchedAt < (date + 2) * MICROS <= now)
       case Force(_, _, _, _, _) => false
  }

  // A call that does not fetch leaves the row as it is and hands back what it holds, however old;
  // with nothing held it hands back nothing, or raises if it was to be forced.
  lemma UnfetchedRead(history: bool, row: Option<CacheRow>, c: Call)
    requires StillGood(row, c) || !c.live || (!c.Force? && c.cacheOnly)
    ensures Step(history, row, c).row == row
    ensures Step(history, row, c).served ==
      if row.Some? then Payload(row.value.body) else if c.Force? then Raised else Nothing
  {
    GoodIsFresh(row, c);
  }

  lemma GoodIsFresh(row: Option<CacheRow>, c: Call)
    ensures StillGood(row, c) <==> ServedFresh(row, c)
  {
    if c.GetEarnings? && c.earnings.Some? && row.Some? {
      DayBegins(row.value.fetchedAt, c.earnings.value + 2);
      DayBegins(c.now, c.earnings.value + 2);
    }
  }

  // A fetch that fails leaves the row as it is. A variant off the plan is answered from the row; an
  // error too, but only while failures are being tracked; and with no row either is raised.
  lemma FailedRead(history: bool, row: Option<CacheRow>, c: Call)
    requires !StillGood(row, c) && c.live && (c.Force? || !c.cacheOnly) && !c.outcome.Answer?
    ensures Step(history, row, c).row == row
    ensures Step(history, row, c).served ==
      if row.Some? && (c.outcome.VariantUnavailable? || c.tracking) then Payload(row.value.body) else Raised
  {
    GoodIsFresh(row, c);
  }

  // ---- the other writers ----

  // A Refresh that goes through keeps the contents of a history row and marks it; of any other key
  // nothing is left, so the next call that may fetch does.
  lemma RefreshIs(history: bool, row: Option<CacheRow>, at: int, blocked: bool)
    ensures var after := Applied(history, row, Event.Refreshed(at, blocked));
      && (blocked ==> after == row)
      && (!blocked && history && row.Some? ==> after == Some(CacheRow(0, row.value.body)))
      && (!blocked && (!history || row.None?) ==> after == None)
  {
  }

  // An age prune deletes a row exactly when it is older than the retention, not marked, and not
  // spared; it changes no other.
  lemma PruneIs(history: bool, row: Option<CacheRow>, at: int, days: int, spared: bool)
    ensures var after := Applied(history, row, Event.Pruned(at, days, spared));
      && (row.Some? ==>
            (after == None <==> !spared && 0 < row.value.fetchedAt && at - row.value.fetchedAt > days * MICROS))
      && (after == None || after == row)
  {
  }
}
