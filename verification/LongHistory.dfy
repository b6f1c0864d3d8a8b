// The ten-year daily store of backend/clients/long_history_bars.py: one fetch when cold, an
// overlapping top-up when stale, a full replacement when the overlap shows a restatement.
module LongHistory {
  import opened Options
  import opened BarCache
  import opened BarBasis

  // One view of a ticker: `live`, the data group is on; `completed`, the newest completed
  // session; the answers to the top-up and to the full request, None when it fails.
  datatype View = View(live: bool, completed: int, now: int, topUp: Option<Frame>, full: Option<Frame>)

  function Completed(v: View, answer: Option<Frame>): Option<Frame> {
    CompletedOnly(answer, Midnight(v.completed))
  }

  // The last bar is the newest completed session and something was written after it settled.
  predicate IsFresh(bars: Bars, v: View) {
    && bars != map[]
    && DateOf(Last(bars.Keys)) >= v.completed
    && exists t :: t in bars && bars[t].fetchedAt >= Midnight(DateOf(Last(bars.Keys))) + SETTLED
  }

  // Every shared close counts, but for the newest stored bar.
  predicate RestatedHistory(bars: Bars, answer: Frame)
    requires bars != map[]
  {
    Disagrees(bars, answer, First(bars.Keys), Last(bars.Keys))
  }

  function Viewed(bars: Bars, v: View): Bars {
    if !v.live || IsFresh(bars, v) then bars
    else if bars == map[] then
      var full := Completed(v, v.full);
      if full.None? then bars else Rows(full.value, Untagged, v.now)
    else
      var topUp := Completed(v, v.topUp);
      if topUp.None? then bars
      else if RestatedHistory(bars, topUp.value) then
        var full := Completed(v, v.full);
        if full.None? then bars else Rows(full.value, Untagged, v.now)
      else bars + Rows(topUp.value, Untagged, v.now)
  }

  class Store {
    var bars: Bars

    constructor ()
      ensures bars == map[]
    {
      bars := map[];
    }

    method Write(frame: Frame, fetchedAt: int, replace: bool)
      modifies this
      ensures bars == if frame == map[] then old(bars)
                      else if replace then Rows(frame, Untagged, fetchedAt)
                      else old(bars) + Rows(frame, Untagged, fetchedAt)
    {
      if frame == map[] {
        return;
      }
      if replace {
        bars := map[];
      }
      bars := bars + Rows(frame, Untagged, fetchedAt);
      assert map[] + Rows(frame, Untagged, fetchedAt) == Rows(frame, Untagged, fetchedAt);
    }

    // None: nothing stored and nothing fetched.
    method GetLongHistory(v: View) returns (served: Option<Bars>)
      modifies this
      ensures bars == Viewed(old(bars), v)
      ensures served == if bars == map[] then None else Some(bars)
    {
      if !v.live || IsFresh(bars, v) {
        return if bars == map[] then None else Some(bars);
      }
      if bars == map[] {
        var full := Completed(v, v.full);
        if full.Some? {
          Write(full.value, v.now, true);
        }
      } else {
        var topUp := Completed(v, v.topUp);
        if topUp.Some? {
          if RestatedHistory(bars, topUp.value) {
            var full := Completed(v, v.full);
            if full.Some? {
              Write(full.value, v.now, true);
            }
          } else {
            Write(topUp.value, v.now, false);
          }
        }
      }
      served := if bars == map[] then None else Some(bars);
    }
  }

  // ---- what a view leaves ----

  // The newest bar is of the newest completed session or later, and something was written when its
  // own day's session was over, at 16:10.
  ghost predicate UpToDate(bars: Bars, v: View) {
    && bars != map[] && Last(bars.Keys) / 1440 >= v.completed
    && exists t :: t in bars && bars[t].fetchedAt >= Last(bars.Keys) / 1440 * 1440 + 970
  }

  // A shared close but for the newest stored bar's is off by more than half a percent.
  ghost predicate HasMoved(bars: Bars, answer: Frame)
    requires bars != map[]
  {
    Deviates(bars, answer, First(bars.Keys), Last(bars.Keys))
  }

  // Of an answer, the bars up to the newest completed session count, when there are any.
  lemma CompletedIs(v: View, answer: Option<Frame>)
    ensures Completed(v, answer).Some? <==> answer.Some? && exists t :: t in answer.value && t <= v.completed * 1440
    ensures Completed(v, answer).Some? ==>
      && (forall t :: t in Completed(v, answer).value <==> t in answer.value && t <= v.completed * 1440)
      && forall t :: t in Completed(v, answer).value ==> Completed(v, answer).value[t] == answer.value[t]
  {
    if answer.Some? && exists t :: t in answer.value && t <= v.completed * 1440 {
      var t :| t in answer.value && t <= v.completed * 1440;
      assert t in (map t | t in answer.value && t <= Midnight(v.completed) :: answer.value[t]);
    }
  }

  // What one view leaves, in every case: nothing changes while the group is off or the store is up
  // to date. A cold store takes the full answer. A warm one is laid over with a top-up that shows no
  // moved bar, takes the full answer in its place when one has moved, and is kept without an answer.
  lemma ViewIs(bars: Bars, v: View)
    ensures var after := Viewed(bars, v);
      var topUp, full := Completed(v, v.topUp), Completed(v, v.full);
      if !v.live || UpToDate(bars, v) then after == bars
      else if bars != map[] && topUp.None? then after == bars
      else if bars != map[] && !HasMoved(bars, topUp.value) then after == bars + Rows(topUp.value, Untagged, v.now)
      else if full.Some? then after == Rows(full.value, Untagged, v.now)
      else after == bars
  {
    if bars != map[] && Completed(v, v.topUp).Some? {
      MovedShows(bars, Completed(v, v.topUp).value, First(bars.Keys), Last(bars.Keys));
    }
  }

  // So a store that fell behind is topped up: given an answer with the newest completed session, it
  // is up to date after a view made once that session is over.
  lemma BehindIsToppedUp(bars: Bars, v: View, t: int)
    requires v.live && bars != map[] && v.now >= v.completed * 1440 + 970
    requires v.topUp.Some? && t in v.topUp.value && t == v.completed * 1440
    requires forall u :: u in bars ==> u <= v.completed * 1440
    requires Completed(v, v.topUp).Some? ==> !HasMoved(bars, Completed(v, v.topUp).value)
    ensures UpToDate(Viewed(bars, v), v)
  {
    ViewIs(bars, v);
    CompletedIs(v, v.topUp);
    var after := Viewed(bars, v);
    if !UpToDate(bars, v) {
      var topUp := Completed(v, v.topUp).value;
      assert t in topUp && t in Rows(topUp, Untagged, v.now);
      assert t in after && after[t].fetchedAt == v.now;
      assert Last(after.Keys) in after && Last(after.Keys) == t;
    }
  }

  // Both answers are each on one basis, and the top-up shares a bar that would show a change, or
  // overwrites everything.
  ghost predicate HonestView(bars: Bars, v: View, topUp: nat, full: nat) {
    var first, second := Completed(v, v.topUp), Completed(v, v.full);
    && (second.Some? ==> FrameOn(second.value, full))
    && (first.Some? && bars != map[] ==>
          && FrameOn(first.value, topUp)
          && Reveals(bars, first.value, First(bars.Keys), Last(bars.Keys))
          && (Shares(bars, first.value, First(bars.Keys), Last(bars.Keys)) || bars.Keys <= first.value.Keys))
  }

  ghost predicate SettledView(bars: Bars, v: View) {
    var first := Completed(v, v.topUp);
    first.Some? && bars != map[] ==> Settled(bars, first.value, First(bars.Keys), Last(bars.Keys))
  }

  // A view changes nothing, or leaves every bar on the basis of the answer it stored, and a warm
  // store is never emptied.
  lemma ViewKeepsBasis(bars: Bars, v: View, held: nat, topUp: nat, full: nat)
    requires AllOn(bars, held) && HonestView(bars, v, topUp, full)
    ensures var after := Viewed(bars, v);
      && (after == bars || AllOn(after, topUp) || AllOn(after, full))
      && (bars != map[] ==> after != map[])
  {
    var first, second := Completed(v, v.topUp), Completed(v, v.full);
    if first.Some? && bars != map[] {
      if bars.Keys <= first.value.Keys {
        CoverOn(bars, first.value, Untagged, v.now, topUp);
      } else {
        OverlapReveals(bars, first.value, First(bars.Keys), Last(bars.Keys), held, topUp);
        if topUp == held {
          UpsertOn(bars, first.value, Untagged, v.now, held);
        }
      }
      var t := Element(bars.Keys);
      assert t in bars + Rows(first.value, Untagged, v.now);
    }
    if second.Some? {
      var t := Element(second.value.Keys);
      assert t in Rows(second.value, Untagged, v.now);
    }
  }

  // A stored day is lost only to a restatement: while the provider stays on the stored basis and
  // settled closes hold still, every view keeps every bar.
  lemma ViewKeepsHistory(bars: Bars, v: View, held: nat, full: nat)
    requires AllOn(bars, held) && HonestView(bars, v, held, full) && SettledView(bars, v)
    ensures bars.Keys <= Viewed(bars, v).Keys
  {
  }

  datatype Visit = Visit(view: View, topUp: nat, full: nat)

  function After(visits: seq<Visit>): Bars
    decreases |visits|
  {
    if visits == [] then map[]
    else Viewed(After(visits[..|visits| - 1]), visits[|visits| - 1].view)
  }

  // From an empty store, over any run of views, all ten years are always on one basis.
  lemma {:induction false} ViewsKeepOneBasis(visits: seq<Visit>)
    requires forall k :: 0 <= k < |visits| ==>
      HonestView(After(visits[..k]), visits[k].view, visits[k].topUp, visits[k].full)
    ensures OneBasis(After(visits))
    decreases |visits|
  {
    if visits != [] {
      var n := |visits| - 1;
      assert forall k :: 0 <= k < n ==> visits[..n][..k] == visits[..k];
      ViewsKeepOneBasis(visits[..n]);
      var before := After(visits[..n]);
      HasBasis(before);
      var held: nat :| AllOn(before, held);
      ViewKeepsBasis(before, visits[n].view, held, visits[n].topUp, visits[n].full);
    }
  }
}
