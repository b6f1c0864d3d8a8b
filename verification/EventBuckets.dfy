// Chart events on their bars (backend/data/chart_data.py): each event is snapped to the last
// visible bar on or before it, and the dividends of a bar become one marker. Dates are days.
module EventBuckets {
  import opened Options

  datatype Event = Event(date: int, amount: real)

  datatype Marker = Marker(time: int, eventDate: int, amount: real)

  type Buckets = map<int, seq<Event>>

  // The visible bars, oldest first.
  predicate Ascending(visible: seq<int>) {
    forall i, j :: 0 <= i < j < |visible| ==> visible[i] < visible[j]
  }

  // The last visible bar whose date is not after the event's.
  function MarkerBarTime(visible: seq<int>, date: int): Option<int>
    decreases |visible|
  {
    if visible == [] then None
    else
      var n := |visible| - 1;
      if visible[n] <= date then Some(visible[n]) else MarkerBarTime(visible[..n], date)
  }

  // Stable sort by date, earliest first.
  function Insert(e: Event, events: seq<Event>): seq<Event> {
    if events == [] || e.date <= events[0].date then [e] + events else [events[0]] + Insert(e, events[1..])
  }

  function ByDate(events: seq<Event>): seq<Event> {
    if events == [] then [] else Insert(events[0], ByDate(events[1..]))
  }

  function Cutoff(visible: seq<int>, weekly: bool, today: int): int
    requires visible != []
  {
    var reach := visible[|visible| - 1] + (if weekly then 6 else 0);
    if today < reach then today else reach
  }

  // The bar an event belongs to, if it is shown at all.
  function BarOf(visible: seq<int>, cutoff: int, e: Event): Option<int> {
    if e.date > cutoff then None else MarkerBarTime(visible, e.date)
  }

  // The events of one bar, in the order given.
  function OnBar(visible: seq<int>, cutoff: int, events: seq<Event>, bar: int): seq<Event>
    decreases |events|
  {
    if events == [] then []
    else
      var e := events[|events| - 1];
      OnBar(visible, cutoff, events[..|events| - 1], bar) + (if BarOf(visible, cutoff, e) == Some(bar) then [e] else [])
  }

  // A bar has a bucket exactly when it has events, and the bucket is those events.
  ghost predicate BucketsOf(buckets: Buckets, visible: seq<int>, cutoff: int, events: seq<Event>) {
    && (forall bar :: bar in buckets <==> OnBar(visible, cutoff, events, bar) != [])
    && (forall bar :: bar in buckets ==> buckets[bar] == OnBar(visible, cutoff, events, bar))
  }

  // One more event goes to the end of its bar's bucket.
  function Placed(buckets: Buckets, bar: int, e: Event): Buckets {
    buckets[bar := (if bar in buckets then buckets[bar] else []) + [e]]
  }

  function Bucketed(buckets: Buckets, bar: Option<int>, e: Event): Buckets {
    if bar.Some? then Placed(buckets, bar.value, e) else buckets
  }

  // The buckets after the events so far.
  function Filled(visible: seq<int>, cutoff: int, events: seq<Event>): Buckets
    decreases |events|
  {
    if events == [] then map[]
    else
      var e := events[|events| - 1];
      Bucketed(Filled(visible, cutoff, events[..|events| - 1]), BarOf(visible, cutoff, e), e)
  }

  lemma {:induction false} FilledAreBuckets(visible: seq<int>, cutoff: int, events: seq<Event>)
    ensures BucketsOf(Filled(visible, cutoff, events), visible, cutoff, events)
    decreases |events|
  {
    if events != [] {
      var n := |events| - 1;
      FilledAreBuckets(visible, cutoff, events[..n]);
      BucketStep(Filled(visible, cutoff, events[..n]), visible, cutoff, events[..n], events[n]);
      assert events == events[..n] + [events[n]];
    }
  }

  lemma BucketStep(buckets: Buckets, visible: seq<int>, cutoff: int, events: seq<Event>, e: Event)
    requires BucketsOf(buckets, visible, cutoff, events)
    ensures BucketsOf(Bucketed(buckets, BarOf(visible, cutoff, e), e), visible, cutoff, events + [e])
  {
    assert (events + [e])[..|events|] == events;
    forall bar
      ensures OnBar(visible, cutoff, events, bar) + [] == OnBar(visible, cutoff, events, bar)
    {
    }
  }

  method BucketEvents(visible: seq<int>, events: seq<Event>, weekly: bool, today: int) returns (buckets: Buckets)
    ensures visible == [] ==> buckets == map[]
    ensures visible != [] ==> BucketsOf(buckets, visible, Cutoff(visible, weekly, today), ByDate(events))
  {
    buckets := map[];
    if visible == [] {
      return;
    }
    var cutoff := Cutoff(visible, weekly, today);
    var sorted := ByDate(events);
    for i := 0 to |sorted|
      invariant buckets == Filled(visible, cutoff, sorted[..i])
    {
      var e := sorted[i];
      assert sorted[..i + 1][..i] == sorted[..i];
      if e.date <= cutoff {
        var bar := MarkerBarTime(visible, e.date);
        if bar.Some? {
          buckets := Placed(buckets, bar.value, e);
        }
      }
    }
    assert sorted[..|sorted|] == sorted;
    FilledAreBuckets(visible, cutoff, sorted);
  }

  function Sum(events: seq<Event>): real
    decreases |events|
  {
    if events == [] then 0.0 else Sum(events[..|events| - 1]) + events[|events| - 1].amount
  }

  // The marker of a bar, if it has events: their sum, at the first one's date.
  function MarkerAt(visible: seq<int>, cutoff: int, events: seq<Event>, bar: int): seq<Marker> {
    var bucket := OnBar(visible, cutoff, events, bar);
    if bucket == [] then [] else [Marker(bar, bucket[0].date, Sum(bucket))]
  }

  function Markers(visible: seq<int>, cutoff: int, events: seq<Event>, bars: seq<int>): seq<Marker>
    decreases |bars|
  {
    if bars == [] then []
    else Markers(visible, cutoff, events, bars[..|bars| - 1]) + MarkerAt(visible, cutoff, events, bars[|bars| - 1])
  }

  method SumAmounts(bucket: seq<Event>) returns (amount: real)
    ensures amount == Sum(bucket)
  {
    amount := 0.0;
    for k := 0 to |bucket|
      invariant amount == Sum(bucket[..k])
    {
      assert bucket[..k + 1][..k] == bucket[..k];
      amount := amount + bucket[k].amount;
    }
    assert bucket[..|bucket|] == bucket;
  }

  // One marker per bucket, in bar order.
  method DividendMarkers(visible: seq<int>, events: seq<Event>, weekly: bool, today: int) returns (out: seq<Marker>)
    ensures visible == [] ==> out == []
    ensures visible != [] ==> out == Markers(visible, Cutoff(visible, weekly, today), ByDate(events), visible)
  {
    out := [];
    var buckets := BucketEvents(visible, events, weekly, today);
    if visible == [] {
      return;
    }
    ghost var cutoff := Cutoff(visible, weekly, today);
    for i := 0 to |visible|
      invariant out == Markers(visible, cutoff, ByDate(events), visible[..i])
    {
      assert visible[..i + 1][..i] == visible[..i];
      assert visible[i] in buckets <==> OnBar(visible, cutoff, ByDate(events), visible[i]) != [];
      if visible[i] in buckets {
        var bucket := buckets[visible[i]];
        assert bucket == OnBar(visible, cutoff, ByDate(events), visible[i]);
        var amount := SumAmounts(bucket);
        out := out + [Marker(visible[i], bucket[0].date, amount)];
      } else {
        assert out + [] == out;
      }
    }
    assert visible[..|visible|] == visible;
  }

  // ---- every event has one bar ----

  // The bar of an event is the greatest visible one not after it, and only an event before the
  // first visible bar has none.
  lemma {:induction false} MarkerBarIsGreatest(visible: seq<int>, date: int)
    requires Ascending(visible)
    ensures var bar := MarkerBarTime(visible, date);
      && (bar.Some? ==> bar.value in visible && bar.value <= date)
      && (bar.Some? ==> forall b :: b in visible && b <= date ==> b <= bar.value)
      && (bar.None? <==> visible == [] || date < visible[0])
    decreases |visible|
  {
    if visible != [] {
      var n := |visible| - 1;
      if visible[n] > date {
        MarkerBarIsGreatest(visible[..n], date);
        assert forall b :: b in visible ==> b in visible[..n] || b == visible[n];
      }
    }
  }

  // The events that are shown: from the first visible bar to the cutoff.
  predicate Eligible(visible: seq<int>, cutoff: int, e: Event)
    requires visible != []
  {
    visible[0] <= e.date <= cutoff
  }

  function Shown(visible: seq<int>, cutoff: int, events: seq<Event>): seq<Event>
    requires visible != []
    decreases |events|
  {
    if events == [] then []
    else
      var e := events[|events| - 1];
      Shown(visible, cutoff, events[..|events| - 1]) + (if Eligible(visible, cutoff, e) then [e] else [])
  }

  lemma ShownIffBar(visible: seq<int>, cutoff: int, e: Event)
    requires visible != [] && Ascending(visible)
    ensures Eligible(visible, cutoff, e) <==> BarOf(visible, cutoff, e).Some?
    ensures BarOf(visible, cutoff, e).Some? ==> BarOf(visible, cutoff, e).value in visible
  {
    MarkerBarIsGreatest(visible, e.date);
  }

  // ---- conservation ----

  function MarkerSum(markers: seq<Marker>): real
    decreases |markers|
  {
    if markers == [] then 0.0 else MarkerSum(markers[..|markers| - 1]) + markers[|markers| - 1].amount
  }

  lemma MarkerSumAppend(markers: seq<Marker>, m: Marker)
    ensures MarkerSum(markers + [m]) == MarkerSum(markers) + m.amount
  {
    assert (markers + [m])[..|markers|] == markers;
  }

  lemma SumAppend(events: seq<Event>, e: Event)
    ensures Sum(events + [e]) == Sum(events) + e.amount
  {
    assert (events + [e])[..|events|] == events;
  }

  lemma BarTotal(visible: seq<int>, cutoff: int, events: seq<Event>, bars: seq<int>)
    requires bars != []
    ensures MarkerSum(Markers(visible, cutoff, events, bars)) ==
      MarkerSum(Markers(visible, cutoff, events, bars[..|bars| - 1]))
      + Sum(OnBar(visible, cutoff, events, bars[|bars| - 1]))
  {
    var before := Markers(visible, cutoff, events, bars[..|bars| - 1]);
    var at := MarkerAt(visible, cutoff, events, bars[|bars| - 1]);
    if at != [] {
      MarkerSumAppend(before, at[0]);
    } else {
      assert before + at == before;
    }
  }

  // What an event adds to the total over some bars.
  function Share(visible: seq<int>, cutoff: int, e: Event, bars: seq<int>): real {
    if BarOf(visible, cutoff, e).Some? && BarOf(visible, cutoff, e).value in bars then e.amount else 0.0
  }

  // Distinct bars: an event counts at one of them at most.
  lemma ShareSplits(visible: seq<int>, cutoff: int, e: Event, bars: seq<int>)
    requires Ascending(bars) && bars != []
    ensures var n := |bars| - 1;
      Share(visible, cutoff, e, bars) ==
        Share(visible, cutoff, e, bars[..n]) + (if BarOf(visible, cutoff, e) == Some(bars[n]) then e.amount else 0.0)
  {
    var n := |bars| - 1;
    assert bars == bars[..n] + [bars[n]];
    assert bars[n] !in bars[..n];
  }

  // One more event adds its amount to exactly the bar it belongs to.
  lemma {:induction false} MarkersGrow(visible: seq<int>, cutoff: int, events: seq<Event>, e: Event, bars: seq<int>)
    requires Ascending(bars)
    ensures MarkerSum(Markers(visible, cutoff, events + [e], bars)) ==
      MarkerSum(Markers(visible, cutoff, events, bars)) + Share(visible, cutoff, e, bars)
    decreases |bars|
  {
    if bars != [] {
      var n := |bars| - 1;
      MarkersGrow(visible, cutoff, events, e, bars[..n]);
      BarTotal(visible, cutoff, events, bars);
      BarTotal(visible, cutoff, events + [e], bars);
      OnBarSum(visible, cutoff, events, e, bars[n]);
      ShareSplits(visible, cutoff, e, bars);
    }
  }

  lemma OnBarSum(visible: seq<int>, cutoff: int, events: seq<Event>, e: Event, bar: int)
    ensures Sum(OnBar(visible, cutoff, events + [e], bar)) ==
      Sum(OnBar(visible, cutoff, events, bar)) + (if BarOf(visible, cutoff, e) == Some(bar) then e.amount else 0.0)
  {
    assert (events + [e])[..|events|] == events;
    SumAppend(OnBar(visible, cutoff, events, bar), e);
    assert OnBar(visible, cutoff, events, bar) + [] == OnBar(visible, cutoff, events, bar);
  }

  lemma {:induction false} NoEventsNoMarkers(visible: seq<int>, cutoff: int, bars: seq<int>)
    ensures Markers(visible, cutoff, [], bars) == []
    decreases |bars|
  {
    if bars != [] {
      NoEventsNoMarkers(visible, cutoff, bars[..|bars| - 1]);
    }
  }

  lemma {:induction false} SortedConserves(visible: seq<int>, cutoff: int, events: seq<Event>)
    requires visible != [] && Ascending(visible)
    ensures MarkerSum(Markers(visible, cutoff, events, visible)) == Sum(Shown(visible, cutoff, events))
    decreases |events|
  {
    if events == [] {
      NoEventsNoMarkers(visible, cutoff, visible);
    } else {
      var n := |events| - 1;
      SortedConserves(visible, cutoff, events[..n]);
      assert events == events[..n] + [events[n]];
      MarkersGrow(visible, cutoff, events[..n], events[n], visible);
      ShownIffBar(visible, cutoff, events[n]);
      assert Share(visible, cutoff, events[n], visible)
          == if Eligible(visible, cutoff, events[n]) then events[n].amount else 0.0;
      SumAppend(Shown(visible, cutoff, events[..n]), events[n]);
      assert Shown(visible, cutoff, events[..n]) + [] == Shown(visible, cutoff, events[..n]);
    }
  }

  // ---- sorting changes no total ----

  // What the events of a kind add up to, in the order the feed lists them.
  function Total(kind: Event -> bool, events: seq<Event>): real {
    if events == [] then 0.0 else (if kind(events[0]) then events[0].amount else 0.0) + Total(kind, events[1..])
  }

  lemma {:induction false} InsertKeepsTotal(kind: Event -> bool, e: Event, events: seq<Event>)
    ensures Total(kind, Insert(e, events)) == Total(kind, [e] + events)
  {
    assert ([e] + events)[1..] == events;
    if events != [] && e.date > events[0].date {
      InsertKeepsTotal(kind, e, events[1..]);
      assert ([e] + events[1..])[1..] == events[1..];
      assert Insert(e, events)[1..] == Insert(e, events[1..]);
    }
  }

  lemma {:induction false} SortKeepsTotal(kind: Event -> bool, events: seq<Event>)
    ensures Total(kind, ByDate(events)) == Total(kind, events)
  {
    if events != [] {
      SortKeepsTotal(kind, events[1..]);
      InsertKeepsTotal(kind, events[0], ByDate(events[1..]));
      assert ([events[0]] + ByDate(events[1..]))[1..] == ByDate(events[1..]);
    }
  }

  lemma {:induction false} TotalAppend(kind: Event -> bool, events: seq<Event>, e: Event)
    ensures Total(kind, events + [e]) == Total(kind, events) + (if kind(e) then e.amount else 0.0)
  {
    if events == [] {
      assert ([] + [e])[1..] == [];
    } else {
      TotalAppend(kind, events[1..], e);
      assert (events + [e])[1..] == events[1..] + [e];
    }
  }

  lemma {:induction false} ShownIsTotal(kind: Event -> bool, visible: seq<int>, cutoff: int, events: seq<Event>)
    requires visible != [] && forall e :: kind(e) <==> Eligible(visible, cutoff, e)
    ensures Sum(Shown(visible, cutoff, events)) == Total(kind, events)
    decreases |events|
  {
    if events != [] {
      var n := |events| - 1;
      ShownIsTotal(kind, visible, cutoff, events[..n]);
      assert events == events[..n] + [events[n]];
      TotalAppend(kind, events[..n], events[n]);
      SumAppend(Shown(visible, cutoff, events[..n]), events[n]);
      assert Shown(visible, cutoff, events[..n]) + [] == Shown(visible, cutoff, events[..n]);
    }
  }

  lemma {:induction false} OnBarIsTotal(kind: Event -> bool, visible: seq<int>, cutoff: int, events: seq<Event>,
                                        bar: int)
    requires forall e :: kind(e) <==> BarOf(visible, cutoff, e) == Some(bar)
    ensures Sum(OnBar(visible, cutoff, events, bar)) == Total(kind, events)
    decreases |events|
  {
    if events != [] {
      var n := |events| - 1;
      OnBarIsTotal(kind, visible, cutoff, events[..n], bar);
      assert events == events[..n] + [events[n]];
      TotalAppend(kind, events[..n], events[n]);
      OnBarSum(visible, cutoff, events[..n], events[n], bar);
    }
  }

  // Nothing is lost and nothing counted twice: the markers add up to the events shown, in
  // whatever order the feed listed them.
  lemma DividendsConserved(visible: seq<int>, events: seq<Event>, weekly: bool, today: int)
    requires visible != [] && Ascending(visible)
    ensures var cutoff := Cutoff(visible, weekly, today);
      MarkerSum(Markers(visible, cutoff, ByDate(events), visible)) == Sum(Shown(visible, cutoff, events))
  {
    var cutoff := Cutoff(visible, weekly, today);
    var shown := (e: Event) => visible[0] <= e.date <= cutoff;
    SortedConserves(visible, cutoff, ByDate(events));
    ShownIsTotal(shown, visible, cutoff, ByDate(events));
    SortKeepsTotal(shown, events);
    ShownIsTotal(shown, visible, cutoff, events);
  }

  // ---- date order ----

  ghost predicate DateOrder(events: seq<Event>) {
    forall i, j :: 0 <= i < j < |events| ==> events[i].date <= events[j].date
  }

  lemma {:induction false} InsertOrders(e: Event, events: seq<Event>)
    requires DateOrder(events)
    ensures DateOrder(Insert(e, events))
    ensures forall x :: x in Insert(e, events) <==> x == e || x in events
  {
    if events != [] {
      assert events == [events[0]] + events[1..];
      if e.date > events[0].date {
        InsertOrders(e, events[1..]);
        var rest := Insert(e, events[1..]);
        forall i | 0 <= i < |rest|
          ensures events[0].date <= rest[i].date
        {
          assert rest[i] in rest;
        }
      }
    }
  }

  lemma {:induction false} ByDateOrders(events: seq<Event>)
    ensures DateOrder(ByDate(events))
    ensures forall x :: x in ByDate(events) <==> x in events
  {
    if events != [] {
      ByDateOrders(events[1..]);
      InsertOrders(events[0], ByDate(events[1..]));
      assert events == [events[0]] + events[1..];
    }
  }

  lemma {:induction false} OnBarMembers(visible: seq<int>, cutoff: int, events: seq<Event>, bar: int)
    ensures forall e ::
      e in OnBar(visible, cutoff, events, bar) <==> e in events && BarOf(visible, cutoff, e) == Some(bar)
    ensures DateOrder(events) ==> DateOrder(OnBar(visible, cutoff, events, bar))
    decreases |events|
  {
    if events != [] {
      var n := |events| - 1;
      assert events == events[..n] + [events[n]];
      OnBarMembers(visible, cutoff, events[..n], bar);
      var before := OnBar(visible, cutoff, events[..n], bar);
      forall i | 0 <= i < |before|
        ensures before[i] in events[..n]
      {
        assert before[i] in before;
      }
    }
  }

  // ---- which events are shown ----

  // The last day shown: today, or before that the last bar's own date or its week's Sunday.
  lemma CutoffIs(visible: seq<int>, weekly: bool, today: int, date: int)
    requires visible != []
    ensures date <= Cutoff(visible, weekly, today)
       <==> date <= today && date <= visible[|visible| - 1] + (if weekly then 6 else 0)
  {
  }

  // The events of a bar: dated on or after it, before any later bar, and not after the last day shown.
  ghost predicate Belongs(e: Event, visible: seq<int>, weekly: bool, today: int, bar: int)
    requires visible != []
  {
    && bar in visible && bar <= e.date && (forall later :: later in visible && bar < later ==> e.date < later)
    && e.date <= today && e.date <= visible[|visible| - 1] + (if weekly then 6 else 0)
  }

  lemma BelongsIff(visible: seq<int>, weekly: bool, today: int, e: Event, bar: int)
    requires visible != [] && Ascending(visible)
    ensures BarOf(visible, Cutoff(visible, weekly, today), e) == Some(bar)
       <==> Belongs(e, visible, weekly, today, bar)
  {
    MarkerBarIsGreatest(visible, e.date);
    CutoffIs(visible, weekly, today, e.date);
  }

  // Each bucket holds exactly the events of its bar, and only bars with events have one.
  lemma BucketsAre(buckets: Buckets, visible: seq<int>, events: seq<Event>, weekly: bool, today: int, bar: int)
    requires visible != [] && Ascending(visible)
    requires BucketsOf(buckets, visible, Cutoff(visible, weekly, today), ByDate(events))
    ensures bar in buckets <==> exists e :: e in events && Belongs(e, visible, weekly, today, bar)
    ensures bar in buckets ==>
      && DateOrder(buckets[bar])
      && forall e :: e in buckets[bar] <==> e in events && Belongs(e, visible, weekly, today, bar)
  {
    var cutoff := Cutoff(visible, weekly, today);
    ByDateOrders(events);
    OnBarMembers(visible, cutoff, ByDate(events), bar);
    forall e
      ensures BarOf(visible, cutoff, e) == Some(bar) <==> Belongs(e, visible, weekly, today, bar)
    {
      BelongsIff(visible, weekly, today, e, bar);
    }
    var bucket := OnBar(visible, cutoff, ByDate(events), bar);
    if bucket != [] {
      assert bucket[0] in bucket;
    }
  }

  // An event is in a bucket exactly when it is dated from the first visible bar to the last day
  // shown, and it is in one only.
  lemma OneBucketEach(visible: seq<int>, weekly: bool, today: int, e: Event)
    requires visible != [] && Ascending(visible)
    ensures (exists bar :: Belongs(e, visible, weekly, today, bar))
       <==> visible[0] <= e.date <= today && e.date <= visible[|visible| - 1] + (if weekly then 6 else 0)
    ensures forall a, b :: Belongs(e, visible, weekly, today, a) && Belongs(e, visible, weekly, today, b) ==> a == b
  {
    MarkerBarIsGreatest(visible, e.date);
    var bar := MarkerBarTime(visible, e.date);
    if bar.Some? {
      BelongsIff(visible, weekly, today, e, bar.value);
    }
    forall a | Belongs(e, visible, weekly, today, a)
      ensures bar == Some(a) && visible[0] <= e.date
    {
      BelongsIff(visible, weekly, today, e, a);
    }
  }

  // A bucket holds each event as often as the feed lists it.
  lemma BucketCounts(visible: seq<int>, events: seq<Event>, weekly: bool, today: int, bar: int, e: Event)
    requires visible != [] && Ascending(visible)
    ensures multiset(OnBar(visible, Cutoff(visible, weekly, today), ByDate(events), bar))[e]
         == if Belongs(e, visible, weekly, today, bar) then multiset(events)[e] else 0
  {
    ByDateCounts(events);
    OnBarCounts(visible, Cutoff(visible, weekly, today), ByDate(events), bar, e);
    BelongsIff(visible, weekly, today, e, bar);
  }

  lemma {:induction false} InsertCounts(e: Event, events: seq<Event>)
    ensures multiset(Insert(e, events)) == multiset(events) + multiset{e}
  {
    if events != [] && e.date > events[0].date {
      InsertCounts(e, events[1..]);
      assert events == [events[0]] + events[1..];
    }
  }

  lemma {:induction false} ByDateCounts(events: seq<Event>)
    ensures multiset(ByDate(events)) == multiset(events)
  {
    if events != [] {
      ByDateCounts(events[1..]);
      InsertCounts(events[0], ByDate(events[1..]));
      assert events == [events[0]] + events[1..];
    }
  }

  lemma {:induction false} OnBarCounts(visible: seq<int>, cutoff: int, events: seq<Event>, bar: int, e: Event)
    ensures multiset(OnBar(visible, cutoff, events, bar))[e]
         == if BarOf(visible, cutoff, e) == Some(bar) then multiset(events)[e] else 0
    decreases |events|
  {
    if events != [] {
      var n := |events| - 1;
      assert events == events[..n] + [events[n]];
      OnBarCounts(visible, cutoff, events[..n], bar, e);
    }
  }

  // ---- the markers themselves ----

  ghost predicate InBarOrder(markers: seq<Marker>) {
    forall i, j :: 0 <= i < j < |markers| ==> markers[i].time < markers[j].time
  }

  // A marker is the date of the first event on its bar and the sum of all of them.
  ghost predicate Marks(m: Marker, visible: seq<int>, cutoff: int, events: seq<Event>) {
    var bucket := OnBar(visible, cutoff, events, m.time);
    bucket != [] && m.eventDate == bucket[0].date && m.amount == Sum(bucket)
  }

  lemma {:induction false} MarkersInOrder(visible: seq<int>, cutoff: int, events: seq<Event>, bars: seq<int>)
    requires Ascending(bars)
    ensures var out := Markers(visible, cutoff, events, bars);
      && InBarOrder(out)
      && (forall i :: 0 <= i < |out| ==> out[i].time in bars && Marks(out[i], visible, cutoff, events))
    decreases |bars|
  {
    if bars != [] {
      var n := |bars| - 1;
      MarkersInOrder(visible, cutoff, events, bars[..n]);
      MarkerStep(Markers(visible, cutoff, events, bars[..n]), visible, cutoff, events, bars);
    }
  }

  lemma MarkerStep(before: seq<Marker>, visible: seq<int>, cutoff: int, events: seq<Event>, bars: seq<int>)
    requires Ascending(bars) && bars != [] && InBarOrder(before)
    requires forall i :: 0 <= i < |before| ==>
      before[i].time in bars[..|bars| - 1] && Marks(before[i], visible, cutoff, events)
    ensures var out := before + MarkerAt(visible, cutoff, events, bars[|bars| - 1]);
      && InBarOrder(out)
      && (forall i :: 0 <= i < |out| ==> out[i].time in bars && Marks(out[i], visible, cutoff, events))
  {
    assert bars == bars[..|bars| - 1] + [bars[|bars| - 1]];
  }

  lemma {:induction false} EveryBarIsMarked(visible: seq<int>, cutoff: int, events: seq<Event>, bars: seq<int>,
                                            bar: int)
    requires bar in bars && OnBar(visible, cutoff, events, bar) != []
    ensures MarkerFor(Markers(visible, cutoff, events, bars), bar)
    decreases |bars|
  {
    var n := |bars| - 1;
    var before := Markers(visible, cutoff, events, bars[..n]);
    var out := before + MarkerAt(visible, cutoff, events, bars[n]);
    if bar == bars[n] {
      assert out[|before|].time == bar;
    } else {
      EveryBarIsMarked(visible, cutoff, events, bars[..n], bar);
      var i :| 0 <= i < |before| && before[i].time == bar;
      assert out[i].time == bar;
    }
  }

  ghost predicate MarkerFor(markers: seq<Marker>, bar: int) {
    exists i :: 0 <= i < |markers| && markers[i].time == bar
  }

  // The events of a bar, as a kind.
  ghost function OfBar(visible: seq<int>, weekly: bool, today: int, bar: int): Event -> bool
    requires visible != []
  {
    (e: Event) => Belongs(e, visible, weekly, today, bar)
  }

  // A marker gives the earliest date of the events of its bar, and what they add up to.
  ghost predicate Tells(m: Marker, visible: seq<int>, weekly: bool, today: int, events: seq<Event>)
    requires visible != []
  {
    && (exists e :: e in events && Belongs(e, visible, weekly, today, m.time) && e.date == m.eventDate)
    && (forall e :: e in events && Belongs(e, visible, weekly, today, m.time) ==> m.eventDate <= e.date)
    && m.amount == Total(OfBar(visible, weekly, today, m.time), events)
  }

  lemma MarksTells(m: Marker, visible: seq<int>, weekly: bool, today: int, events: seq<Event>)
    requires visible != [] && Ascending(visible)
    requires Marks(m, visible, Cutoff(visible, weekly, today), ByDate(events))
    ensures Tells(m, visible, weekly, today, events)
  {
    var cutoff, kind := Cutoff(visible, weekly, today), OfBar(visible, weekly, today, m.time);
    var bucket := OnBar(visible, cutoff, ByDate(events), m.time);
    forall e
      ensures BarOf(visible, cutoff, e) == Some(m.time) <==> Belongs(e, visible, weekly, today, m.time)
    {
      BelongsIff(visible, weekly, today, e, m.time);
    }
    OnBarIsTotal(kind, visible, cutoff, ByDate(events), m.time);
    SortKeepsTotal(kind, events);
    ByDateOrders(events);
    OnBarMembers(visible, cutoff, ByDate(events), m.time);
    assert bucket[0] in bucket;
    forall e | e in events && Belongs(e, visible, weekly, today, m.time)
      ensures m.eventDate <= e.date
    {
      var i :| 0 <= i < |bucket| && bucket[i] == e;
    }
  }

  // The markers come in strictly increasing bar order, one for each bar that has events; each gives
  // the earliest date of its bar's events and their sum.
  lemma MarkersFaithful(visible: seq<int>, events: seq<Event>, weekly: bool, today: int)
    requires visible != [] && Ascending(visible)
    ensures var out := Markers(visible, Cutoff(visible, weekly, today), ByDate(events), visible);
      && InBarOrder(out)
      && (forall i :: 0 <= i < |out| ==> out[i].time in visible && Tells(out[i], visible, weekly, today, events))
      && (forall e, bar :: e in events && Belongs(e, visible, weekly, today, bar) ==> MarkerFor(out, bar))
  {
    var cutoff := Cutoff(visible, weekly, today);
    var out := Markers(visible, cutoff, ByDate(events), visible);
    MarkersInOrder(visible, cutoff, ByDate(events), visible);
    forall i | 0 <= i < |out|
      ensures Tells(out[i], visible, weekly, today, events)
    {
      MarksTells(out[i], visible, weekly, today, events);
    }
    forall e, bar | e in events && Belongs(e, visible, weekly, today, bar)
      ensures MarkerFor(out, bar)
    {
      BelongsIff(visible, weekly, today, e, bar);
      ByDateOrders(events);
      OnBarMembers(visible, cutoff, ByDate(events), bar);
      EveryBarIsMarked(visible, cutoff, ByDate(events), visible, bar);
    }
  }
}
