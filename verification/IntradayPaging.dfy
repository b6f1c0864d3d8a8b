// Paging through hourly bars (FMPIntradaySource.fetch in backend/clients/daily_bar_sources.py)
// and the parallel windows of an uncached chart (backend/data/chart_data.py). Bar times are
// minutes, dates are days.
module IntradayPaging {
  import opened Options

  const DAY := 1440
  const MAX_PAGES := 40
  const PAGE_DONE_DAYS := 6
  const WINDOW_DAYS := 90

  function DateOf(t: int): int { t / DAY }

  // What one request comes to: a list of bar times, a body that is no list, or a failure of some
  // kind (an error, the group going off, a row without a usable date).
  datatype Reply = Rows(times: seq<int>) | NotAList | Failed | Malformed

  // Why the paging stopped.
  datatype Exit = NothingLeft | NoPage | NoProgress | ReachedStart | PageCap

  datatype Fetched = Nothing | History(times: seq<int>, exit: Exit)

  predicate InRange(t: int, start: int, to: int) {
    start <= DateOf(t) <= to
  }

  // The oldest time of a page.
  function Oldest(times: seq<int>): (m: int)
    requires times != []
    ensures m in times && forall t :: t in times ==> m <= t
  {
    if |times| == 1 then times[0]
    else
      var rest := Oldest(times[1..]);
      assert times == [times[0]] + times[1..];
      if times[0] <= rest then times[0] else rest
  }

  // A page is some of the newest bars in the range, at least one of them while there are any.
  ghost predicate NewestOf(times: seq<int>, bars: set<int>, start: int, to: int) {
    && (forall t :: t in times ==> t in bars && InRange(t, start, to))
    && (times == [] ==> forall t :: t in bars ==> !InRange(t, start, to))
    && (times != [] ==> forall t :: t in bars && InRange(t, start, to) && t >= Oldest(times) ==> t in times)
  }

  // Provider and request: the i-th request for dates up to `to` is answered by reply(i, to).
  ghost predicate Provides(reply: (nat, int) -> Reply, bars: set<int>, start: int) {
    forall i: nat, to: int :: reply(i, to).Rows? ==> NewestOf(reply(i, to).times, bars, start, to)
  }

  // Every page either goes back past its newest day or is all there is.
  ghost predicate Generous(reply: (nat, int) -> Reply, bars: set<int>, start: int) {
    forall i: nat, to: int :: reply(i, to).Rows? && reply(i, to).times != [] ==>
      DateOf(Oldest(reply(i, to).times)) < to || HoldsAll(reply(i, to).times, bars, start, to)
  }

  ghost predicate HoldsAll(times: seq<int>, bars: set<int>, start: int, to: int) {
    forall t :: t in bars && InRange(t, start, to) ==> t in times
  }

  // No hole: the times are exactly the bars from `oldest` to `to`.
  ghost predicate Contiguous(times: seq<int>, bars: set<int>, start: int, to: int, oldest: int) {
    forall t :: t in times <==> t in bars && InRange(t, start, to) && t >= oldest
  }

  // ---- the requests made ----

  function TimesOf(reply: Reply): seq<int> {
    if reply.Rows? then reply.times else []
  }

  // All the rows answered to the requests for dates up to `asked[0]`, `asked[1]` and so on.
  function Joined(reply: (nat, int) -> Reply, asked: seq<int>): (times: seq<int>)
    decreases |asked|
  {
    if asked == [] then []
    else
      var n := |asked| - 1;
      Joined(reply, asked[..n]) + TimesOf(reply(n, asked[n]))
  }

  // The k-th answer has nothing older than the one before it.
  ghost predicate Stalls(reply: (nat, int) -> Reply, asked: seq<int>, k: nat)
    requires 0 < k < |asked|
  {
    var before, page := TimesOf(reply(k - 1, asked[k - 1])), TimesOf(reply(k, asked[k]));
    before != [] && page != [] && Oldest(page) >= Oldest(before)
  }

  // The k-th request was answered with bars, older than those before it and the oldest of them more
  // than six days after the start, and the next one asked for dates up to that bar's.
  ghost predicate GoesOn(reply: (nat, int) -> Reply, asked: seq<int>, start: int, k: nat, next: int)
    requires k < |asked|
  {
    var page := TimesOf(reply(k, asked[k]));
    && page != [] && (k > 0 ==> !Stalls(reply, asked, k))
    && Oldest(page) / 1440 - start > 6 && next == Oldest(page) / 1440
  }

  // The requests follow one another: the first for dates up to today, at most forty in all.
  ghost predicate Followed(reply: (nat, int) -> Reply, asked: seq<int>, start: int, today: int) {
    && 0 < |asked| <= 40 && asked[0] == today
    && forall k :: 0 <= k < |asked| - 1 ==> Leads(reply, asked, start, k)
  }

  ghost predicate Leads(reply: (nat, int) -> Reply, asked: seq<int>, start: int, k: nat)
    requires k + 1 < |asked|
  {
    GoesOn(reply, asked, start, k, asked[k + 1])
  }

  // What the requests come to, told from the answer to the last of them.
  ghost predicate Concludes(fetched: Fetched, reply: (nat, int) -> Reply, asked: seq<int>, start: int)
    requires asked != []
  {
    var n, times := |asked| - 1, Joined(reply, asked);
    match reply(n, asked[n])
    case Failed | Malformed => fetched == Nothing
    case NotAList => fetched == History(times, NoPage)
    case Rows(page) =>
      if page == [] then fetched == History(times, NothingLeft)
      else if n > 0 && Stalls(reply, asked, n) then fetched == History(times, NoProgress)
      else if Oldest(page) / 1440 - start <= 6 then fetched == History(times, ReachedStart)
      else |asked| == 40 && fetched == History(times, PageCap)
  }

  // The rows so far: all the bars from `oldest` on; the next request is for dates up to its date.
  ghost predicate Reached(rows: seq<int>, bars: set<int>, start: int, today: int, to: int, oldest: Option<int>) {
    match oldest
    case None => rows == [] && to == today
    case Some(first) =>
      && rows != [] && first == Oldest(rows) && to == DateOf(first) <= today
      && Contiguous(rows, bars, start, today, first)
  }

  // What is true of a result, wherever the paging stops.
  ghost predicate Sound(f: Fetched, reply: (nat, int) -> Reply, bars: set<int>, start: int, today: int) {
    f.History? ==>
      && (f.times != [] ==> Contiguous(f.times, bars, start, today, Oldest(f.times)))
      && (f.times == [] ==> f.exit == NoPage || HoldsAll([], bars, start, today))
      && (f.exit == ReachedStart ==> f.times != [] && DateOf(Oldest(f.times)) - start <= PAGE_DONE_DAYS)
      && (f.exit in {NothingLeft, NoProgress} && Generous(reply, bars, start) ==>
            HoldsAll(f.times, bars, start, today))
  }

  // What some such requests come to.
  ghost predicate Paged(fetched: Fetched, reply: (nat, int) -> Reply, start: int, today: int) {
    exists asked :: Followed(reply, asked, start, today) && Concludes(fetched, reply, asked, start)
  }

  // The requests it makes, each from the answer before, and what the last answer makes of them. A
  // failed page returns nothing at all.
  method FetchPages(reply: (nat, int) -> Reply, start: int, today: int) returns (fetched: Fetched)
    ensures Paged(fetched, reply, start, today)
  {
    var rowsAll: seq<int> := [];
    var to := today;
    var oldest: Option<int> := None;
    ghost var asked: seq<int> := [];
    for page := 0 to MAX_PAGES
      invariant Asking(reply, asked, start, today, page, to, rowsAll, oldest)
    {
      var rows := reply(page, to);
      AnswerConcludes(reply, asked, start, today, page, to, rowsAll, oldest);
      asked := asked + [to];
      if rows.Failed? || rows.Malformed? {
        return Nothing;
      }
      if rows.NotAList? {
        return History(rowsAll, NoPage);
      }
      if rows.times == [] {
        return History(rowsAll, NothingLeft);
      }
      rowsAll := rowsAll + rows.times;
      var pageOldest := Oldest(rows.times);
      if oldest.Some? && pageOldest >= oldest.value {
        return History(rowsAll, NoProgress);
      }
      oldest := Some(pageOldest);
      if DateOf(pageOldest) - start <= PAGE_DONE_DAYS {
        return History(rowsAll, ReachedStart);
      }
      to := DateOf(pageOldest);
    }
    fetched := History(rowsAll, PageCap);
  }

  // The oldest bar of the page before the last request.
  function OldestBefore(reply: (nat, int) -> Reply, asked: seq<int>): Option<int>
    requires asked != []
  {
    var n := |asked| - 1;
    if n == 0 || TimesOf(reply(n - 1, asked[n - 1])) == [] then None
    else Some(Oldest(TimesOf(reply(n - 1, asked[n - 1]))))
  }

  // Before the last request, the rows so far are all the bars from the oldest of them on.
  ghost predicate ReachedAt(reply: (nat, int) -> Reply, bars: set<int>, start: int, today: int, asked: seq<int>)
    requires asked != []
  {
    var n := |asked| - 1;
    Reached(Joined(reply, asked[..n]), bars, start, today, asked[n], OldestBefore(reply, asked))
  }

  // The last two steps went on.
  ghost predicate WentOn(reply: (nat, int) -> Reply, asked: seq<int>, start: int) {
    && (|asked| > 1 ==> Leads(reply, asked, start, |asked| - 2))
    && (|asked| > 2 ==> Leads(reply, asked, start, |asked| - 3))
  }

  lemma {:induction false} ReachedByLast(reply: (nat, int) -> Reply, bars: set<int>, start: int, today: int,
                                         asked: seq<int>)
    requires Provides(reply, bars, start) && Followed(reply, asked, start, today)
    ensures ReachedAt(reply, bars, start, today, asked)
    decreases |asked|
  {
    if |asked| > 1 {
      FollowedSoFar(reply, asked, start, today);
      ReachedByLast(reply, bars, start, today, asked[..|asked| - 1]);
      ReachedNext(reply, bars, start, today, asked, asked[..|asked| - 1]);
    }
  }

  lemma ReachedNext(reply: (nat, int) -> Reply, bars: set<int>, start: int, today: int, asked: seq<int>,
                    earlier: seq<int>)
    requires Provides(reply, bars, start) && |asked| > 1 && earlier == asked[..|asked| - 1]
    requires WentOn(reply, asked, start) && ReachedAt(reply, bars, start, today, earlier)
    ensures ReachedAt(reply, bars, start, today, asked)
  {
    var n := |earlier| - 1;
    PageGoesBack(reply, bars, start, today, n, earlier[n], Joined(reply, earlier[..n]), OldestBefore(reply, earlier));
    assert Joined(reply, earlier) == Joined(reply, earlier[..n]) + TimesOf(reply(n, earlier[n]));
  }

  lemma FollowedSoFar(reply: (nat, int) -> Reply, asked: seq<int>, start: int, today: int)
    requires Followed(reply, asked, start, today) && |asked| > 1
    ensures Followed(reply, asked[..|asked| - 1], start, today) && WentOn(reply, asked, start)
  {
    assert Leads(reply, asked, start, |asked| - 2);
    assert |asked| > 2 ==> Leads(reply, asked, start, |asked| - 3);
    var earlier := asked[..|asked| - 1];
    forall k | 0 <= k < |earlier| - 1
      ensures Leads(reply, earlier, start, k)
    {
      assert Leads(reply, asked, start, k);
    }
  }

  lemma PageGoesBack(reply: (nat, int) -> Reply, bars: set<int>, start: int, today: int, page: nat, to: int,
                     rows: seq<int>, oldest: Option<int>)
    requires Provides(reply, bars, start) && Reached(rows, bars, start, today, to, oldest)
    requires var times := TimesOf(reply(page, to)); times != [] && (oldest.Some? ==> Oldest(times) < oldest.value)
    ensures GoesBack(TimesOf(reply(page, to)), rows, bars, start, today)
  {
    PageExtends(rows, TimesOf(reply(page, to)), bars, start, today, to, oldest);
  }

  // Whatever the page sizes and wherever the paging stops, what it returns has no hole: it is every
  // bar of the range from its oldest bar on.
  lemma PagesHaveNoHole(reply: (nat, int) -> Reply, bars: set<int>, start: int, today: int, asked: seq<int>,
                        fetched: Fetched)
    requires Provides(reply, bars, start) && Followed(reply, asked, start, today)
    requires Concludes(fetched, reply, asked, start)
    ensures Sound(fetched, reply, bars, start, today)
  {
    ReachedByLast(reply, bars, start, today, asked);
    if |asked| > 1 {
      FollowedSoFar(reply, asked, start, today);
    }
    EndIsSound(reply, bars, start, today, asked, fetched);
  }

  lemma EndIsSound(reply: (nat, int) -> Reply, bars: set<int>, start: int, today: int, asked: seq<int>,
                   fetched: Fetched)
    requires Provides(reply, bars, start) && asked != [] && WentOn(reply, asked, start)
    requires ReachedAt(reply, bars, start, today, asked) && Concludes(fetched, reply, asked, start)
    ensures Sound(fetched, reply, bars, start, today)
  {
    var n := |asked| - 1;
    ConcludesSo(fetched, reply, asked, start);
    AnswerIsSound(reply, bars, start, today, n, asked[n], Joined(reply, asked[..n]), OldestBefore(reply, asked));
  }

  // What the paging comes to if this answer is its last.
  function Ended(reply: Reply, start: int, rows: seq<int>, oldest: Option<int>): Fetched {
    var c := Conclusion(reply, start, rows, oldest);
    if c.Some? then c.value else History(rows + TimesOf(reply), PageCap)
  }

  lemma ConcludesSo(fetched: Fetched, reply: (nat, int) -> Reply, asked: seq<int>, start: int)
    requires asked != [] && Concludes(fetched, reply, asked, start) && WentOn(reply, asked, start)
    ensures var n := |asked| - 1;
      fetched == Ended(reply(n, asked[n]), start, Joined(reply, asked[..n]), OldestBefore(reply, asked))
  {
    var n := |asked| - 1;
    assert Joined(reply, asked) == Joined(reply, asked[..n]) + TimesOf(reply(n, asked[n]));
    assert reply(n, asked[n]).Rows? || TimesOf(reply(n, asked[n])) == [];
    assert Joined(reply, asked[..n]) + [] == Joined(reply, asked[..n]);
  }

  lemma AnswerIsSound(reply: (nat, int) -> Reply, bars: set<int>, start: int, today: int, page: nat, to: int,
                      rows: seq<int>, oldest: Option<int>)
    requires Provides(reply, bars, start) && Reached(rows, bars, start, today, to, oldest)
    ensures Sound(Ended(reply(page, to), start, rows, oldest), reply, bars, start, today)
  {
    var times := TimesOf(reply(page, to));
    if times != [] && oldest.Some? && Oldest(times) >= oldest.value {
      StalledIsSound(reply, bars, start, today, to, rows, times, oldest);
    } else if times != [] {
      PageExtends(rows, times, bars, start, today, to, oldest);
    }
  }

  lemma StalledIsSound(reply: (nat, int) -> Reply, bars: set<int>, start: int, today: int, to: int, rows: seq<int>,
                       times: seq<int>, oldest: Option<int>)
    requires Reached(rows, bars, start, today, to, oldest) && NewestOf(times, bars, start, to)
    requires times != [] && oldest.Some? && Oldest(times) >= oldest.value
    requires Generous(reply, bars, start) ==> DateOf(Oldest(times)) < to || HoldsAll(times, bars, start, to)
    ensures Sound(History(rows + times, NoProgress), reply, bars, start, today)
  {
    assert forall t :: t in rows + times <==> t in rows;
    OldestOfSame(rows + times, rows);
  }

  ghost predicate GoesBack(times: seq<int>, rows: seq<int>, bars: set<int>, start: int, today: int) {
    && times != []
    && Reached(rows + times, bars, start, today, DateOf(Oldest(times)), Some(Oldest(times)))
  }

  // Where the paging stands after `page` pages.
  ghost predicate Asking(reply: (nat, int) -> Reply, asked: seq<int>, start: int, today: int, page: nat, to: int,
                         rows: seq<int>, oldest: Option<int>)
  {
    && |asked| == page && rows == Joined(reply, asked)
    && (if page < 40 then Followed(reply, asked + [to], start, today)
        else Paged(History(rows, PageCap), reply, start, today))
    && (page == 0 <==> oldest.None?)
    && (page > 0 ==>
          && TimesOf(reply(page - 1, asked[page - 1])) != []
          && oldest.value == Oldest(TimesOf(reply(page - 1, asked[page - 1]))))
  }

  // What one more answer comes to.
  function Conclusion(reply: Reply, start: int, rows: seq<int>, oldest: Option<int>): Option<Fetched> {
    match reply
    case Failed | Malformed => Some(Nothing)
    case NotAList => Some(History(rows, NoPage))
    case Rows(times) =>
      if times == [] then Some(History(rows, NothingLeft))
      else if oldest.Some? && Oldest(times) >= oldest.value then Some(History(rows + times, NoProgress))
      else if Oldest(times) / 1440 - start <= 6 then Some(History(rows + times, ReachedStart))
      else None
  }

  lemma AnswerConcludes(reply: (nat, int) -> Reply, asked: seq<int>, start: int, today: int, page: nat, to: int,
                        rows: seq<int>, oldest: Option<int>)
    requires page < 40 && Asking(reply, asked, start, today, page, to, rows, oldest)
    ensures Followed(reply, asked + [to], start, today)
    ensures var c := Conclusion(reply(page, to), start, rows, oldest);
      && (c.Some? ==> Paged(c.value, reply, start, today))
      && (c.None? ==> AsksOn(reply, asked + [to], start, today, page + 1, TimesOf(reply(page, to)), rows))
  {
    var after := asked + [to];
    assert after[..page] == asked && after[page] == to;
    assert page > 0 ==> after[page - 1] == asked[page - 1];
    assert Joined(reply, after) == rows + TimesOf(reply(page, to));
    var c := Conclusion(reply(page, to), start, rows, oldest);
    if c.Some? {
      assert Concludes(c.value, reply, after, start);
    } else if page + 1 < 40 {
      var next := Oldest(TimesOf(reply(page, to))) / 1440;
      assert GoesOn(reply, after, start, page, next);
      FollowedOn(reply, after, start, today, next);
    } else {
      assert Concludes(History(rows + TimesOf(reply(page, to)), PageCap), reply, after, start);
    }
  }

  ghost predicate AsksOn(reply: (nat, int) -> Reply, asked: seq<int>, start: int, today: int, page: nat,
                         times: seq<int>, rows: seq<int>)
  {
    && times != []
    && Asking(reply, asked, start, today, page, Oldest(times) / 1440, rows + times, Some(Oldest(times)))
  }

  lemma FollowedOn(reply: (nat, int) -> Reply, asked: seq<int>, start: int, today: int, next: int)
    requires Followed(reply, asked, start, today) && |asked| < 40
    requires GoesOn(reply, asked, start, |asked| - 1, next)
    ensures Followed(reply, asked + [next], start, today)
  {
    var after := asked + [next];
    forall k | 0 <= k < |after| - 1
      ensures Leads(reply, after, start, k)
    {
      assert after[k] == asked[k];
      if k > 0 {
        assert after[k - 1] == asked[k - 1];
      }
      if k + 1 < |asked| {
        assert Leads(reply, asked, start, k) && after[k + 1] == asked[k + 1];
      }
    }
  }

  // A bar of regular trading hours, from 09:30 to 15:30 of a weekday, that has completed.
  predicate Regular(t: int, completed: int) {
    (DateOf(t) + 3) % 7 < 5 && 570 <= t % DAY <= 930 && t <= completed
  }

  // Exactly the regular bars from `oldest` on.
  ghost predicate NoHole(frame: set<int>, bars: set<int>, start: int, today: int, completed: int, oldest: int) {
    forall t :: t in frame <==> t in bars && InRange(t, start, today) && t >= oldest && Regular(t, completed)
  }

  // A time to hand on: completed, and from 09:30 to 15:30 of no Saturday and no Sunday.
  ghost predicate HandedOn(t: int, completed: int) {
    t <= completed && t / 1440 % 7 !in {2, 3} && 9 * 60 + 30 <= t % 1440 <= 15 * 60 + 30
  }

  // Of what the requests brought, exactly the times to hand on; nothing when there are none or when
  // the last page failed.
  ghost predicate FrameOf(frame: Option<set<int>>, reply: (nat, int) -> Reply, asked: seq<int>, completed: int)
    requires asked != []
  {
    var last := reply(|asked| - 1, asked[|asked| - 1]);
    && (frame.None? <==>
          last.Failed? || last.Malformed? || forall t :: t in Joined(reply, asked) ==> !HandedOn(t, completed))
    && (frame.Some? ==> forall t :: t in frame.value <==> t in Joined(reply, asked) && HandedOn(t, completed))
  }

  ghost predicate Framed(frame: Option<set<int>>, reply: (nat, int) -> Reply, start: int, today: int, completed: int) {
    exists asked :: Followed(reply, asked, start, today) && FrameOf(frame, reply, asked, completed)
  }

  // What is handed on: the regular, completed bars among the rows, each once; nothing when there are
  // none, or when a page failed. No filter makes a hole.
  method FetchFrame(reply: (nat, int) -> Reply, ghost bars: set<int>, start: int, today: int, completed: int)
    returns (frame: Option<set<int>>)
    requires Provides(reply, bars, start)
    ensures Framed(frame, reply, start, today, completed)
    ensures frame.Some? ==> exists oldest :: NoHole(frame.value, bars, start, today, completed, oldest)
  {
    var fetched := FetchPages(reply, start, today);
    ghost var asked :| Followed(reply, asked, start, today) && Concludes(fetched, reply, asked, start);
    PagesHaveNoHole(reply, bars, start, today, asked, fetched);
    FramedIf(reply, start, today, completed, asked, fetched);
    if fetched.Nothing? {
      return None;
    }
    var kept := set t | t in fetched.times && Regular(t, completed);
    if kept == {} {
      return None;
    }
    assert fetched.times != [];
    assert NoHole(kept, bars, start, today, completed, Oldest(fetched.times));
    frame := Some(kept);
  }

  // The completed regular bars among the rows, if any.
  function Filtered(fetched: Fetched, completed: int): Option<set<int>> {
    if fetched.Nothing? then None
    else
      var kept := set t | t in fetched.times && Regular(t, completed);
      if kept == {} then None else Some(kept)
  }

  lemma FramedIf(reply: (nat, int) -> Reply, start: int, today: int, completed: int, asked: seq<int>, fetched: Fetched)
    requires Followed(reply, asked, start, today) && Concludes(fetched, reply, asked, start)
    ensures Framed(Filtered(fetched, completed), reply, start, today, completed)
  {
    forall t
      ensures Regular(t, completed) <==> HandedOn(t, completed)
    {
      RegularIff(t, completed);
    }
    if fetched.History? {
      var kept := set t | t in fetched.times && Regular(t, completed);
      assert forall t :: t in kept <==> t in Joined(reply, asked) && HandedOn(t, completed);
    }
    assert FrameOf(Filtered(fetched, completed), reply, asked, completed);
  }

  lemma RegularIff(t: int, completed: int)
    ensures Regular(t, completed) <==> HandedOn(t, completed)
  {
  }

  lemma OldestOfSame(a: seq<int>, b: seq<int>)
    requires a != [] && b != [] && forall t :: t in a <==> t in b
    ensures Oldest(a) == Oldest(b)
  {
  }

  // An older page continues exactly where the rows so far begin.
  lemma PageExtends(rows: seq<int>, page: seq<int>, bars: set<int>, start: int, today: int, to: int,
                    oldest: Option<int>)
    requires page != [] && NewestOf(page, bars, start, to)
    requires oldest.None? ==> rows == [] && to == today
    requires oldest.Some? ==>
      && rows != [] && oldest.value == Oldest(rows) && to == DateOf(oldest.value) <= today
      && Contiguous(rows, bars, start, today, oldest.value) && Oldest(page) < oldest.value
    ensures Contiguous(rows + page, bars, start, today, Oldest(page))
    ensures Oldest(rows + page) == Oldest(page)
    ensures DateOf(Oldest(page)) <= today
  {
    forall t | t in bars && InRange(t, start, today) && t >= Oldest(page)
      ensures t in rows + page
    {
      if oldest.Some? && t < oldest.value {
        assert DateOf(t) <= to;
      }
    }
  }

  // ---- parallel windows ----

  // Consecutive windows share exactly their boundary date.
  predicate Chained(windows: seq<(int, int)>) {
    forall k :: 0 < k < |windows| ==> windows[k].0 == windows[k - 1].1
  }

  predicate Covered(windows: seq<(int, int)>, date: int) {
    exists k :: 0 <= k < |windows| && windows[k].0 <= date <= windows[k].1
  }

  // The windows of an uncached chart tile its lookback: no date is missed, none but a shared
  // boundary is asked for twice, and no window is wider than ninety days.
  method TileWindows(today: int, lookbackDays: int) returns (windows: seq<(int, int)>)
    requires lookbackDays >= 1
    ensures |windows| > 0 && windows[0].0 == today - (lookbackDays - 1) && windows[|windows| - 1].1 == today
    ensures Chained(windows)
    ensures forall k :: 0 <= k < |windows| ==> windows[k].0 <= windows[k].1 <= windows[k].0 + 90
    ensures forall k :: 0 <= k < |windows| - 1 ==> windows[k].1 == windows[k].0 + 90
    ensures forall date :: today - (lookbackDays - 1) <= date <= today ==> Covered(windows, date)
  {
    windows := [];
    var first := today - (lookbackDays - 1);
    var a := first;
    while true
      invariant first <= a <= today
      invariant windows == [] ==> a == first
      invariant windows != [] ==> windows[0].0 == first && windows[|windows| - 1].1 == a < today
      invariant Chained(windows)
      invariant forall k :: 0 <= k < |windows| ==> windows[k].0 < windows[k].1 == windows[k].0 + WINDOW_DAYS
      invariant forall date :: first <= date < a ==> Covered(windows, date)
      decreases today - a
    {
      var b := if a + WINDOW_DAYS <= today then a + WINDOW_DAYS else today;
      ghost var earlier := windows;
      windows := windows + [(a, b)];
      forall date | first <= date <= b
        ensures Covered(windows, date)
      {
        CoverGrows(earlier, a, b, date);
      }
      if b >= today {
        break;
      }
      a := b;
    }
  }

  lemma CoverGrows(windows: seq<(int, int)>, a: int, b: int, date: int)
    requires Covered(windows, date) || a <= date <= b
    ensures Covered(windows + [(a, b)], date)
  {
    if Covered(windows, date) {
      var k :| 0 <= k < |windows| && windows[k].0 <= date <= windows[k].1;
      assert (windows + [(a, b)])[k] == windows[k];
    } else {
      assert (windows + [(a, b)])[|windows|] == (a, b);
    }
  }
}
