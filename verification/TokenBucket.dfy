// The outbound request limiter of backend/clients/fmp_client.py (_TokenBucket).
//
// The class keeps the source's two fields and is proved against AcquireStep. The run-level
// results go through a second, independent description of the same limiter: one clock
// reading, the instant at which the bucket would be full again (FullAt). In that form a
// grant pushes the instant back by one emission interval, and everything about whole runs
// becomes arithmetic over sums of emission intervals.
module TokenBucket {
  import opened Options

  // rate: tokens per second; capacity: max(burst, 1); maxWait: longest wait accepted.
  datatype Limits = Limits(rate: real, capacity: real, maxWait: real) {
    ghost predicate Valid() {
      rate > 0.0 && capacity >= 1.0
    }

    // The emission interval: seconds for one token.
    function Interval(): (tau: real)
      requires rate > 0.0
    {
      1.0 / rate
    }

    // How far ahead of the steady schedule a full bucket may run.
    function BurstSpan(): real
      requires rate > 0.0
    {
      (capacity - 1.0) * Interval()
    }
  }

  datatype State = State(tokens: real, updated: real)

  // What a caller sees: a due time, or a refusal naming the wait it would have taken.
  datatype Outcome = Granted(due: real) | Refused(wait: real)

  function Min(a: real, b: real): real { if a <= b then a else b }

  function Max(a: real, b: real): real { if a >= b then a else b }

  function Refilled(l: Limits, s: State, now: real): real {
    Min(l.capacity, s.tokens + (now - s.updated) * l.rate)
  }

  function WaitFor(l: Limits, tokens: real): real
    requires l.rate > 0.0
  {
    if tokens >= 1.0 then 0.0 else (1.0 - tokens) / l.rate
  }

  // One call to acquire at `now`: the locked section, and the instant its sleep ends.
  function AcquireStep(l: Limits, s: State, now: real): (State, Outcome)
    requires l.rate > 0.0
  {
    var tokens := Refilled(l, s, now);
    var wait := WaitFor(l, tokens);
    if wait > l.maxWait then (State(tokens, now), Refused(wait))
    else (State(tokens - 1.0, now), Granted(now + wait))
  }

  class Bucket {
    const limits: Limits
    var tokens: real
    var updated: real

    ghost predicate Valid()
      reads this
    {
      limits.Valid() && tokens <= limits.capacity
    }

    ghost function Abs(): State
      reads this
    {
      State(tokens, updated)
    }

    // A rate of zero or less never reaches this constructor (enable_api_rate_limit).
    constructor (ratePerMinute: real, burst: int, maxWait: real, now: real)
      requires ratePerMinute > 0.0
      ensures Valid()
      ensures limits.rate * 60.0 == ratePerMinute && limits.maxWait == maxWait
      ensures limits.capacity == (if burst < 1 then 1.0 else burst as real)
      ensures Abs() == Start(limits, now)
    {
      var capacity := if burst < 1 then 1.0 else burst as real;
      limits := Limits(ratePerMinute / 60.0, capacity, maxWait);
      tokens := capacity;
      updated := now;
    }

    method Acquire(now: real) returns (outcome: Outcome)
      requires Valid() && updated <= now
      modifies this
      ensures Valid()
      ensures (Abs(), outcome) == AcquireStep(limits, old(Abs()), now)
    {
      tokens := Refilled(limits, State(tokens, updated), now);
      updated := now;
      var wait := WaitFor(limits, tokens);
      if wait > limits.maxWait {
        return Refused(wait);
      }
      tokens := tokens - 1.0;
      outcome := Granted(now + wait);
    }
  }

  // ---- runs ----

  function Start(l: Limits, now: real): State {
    State(l.capacity, now)
  }

  function EndClock(start: real, times: seq<real>): real {
    if times == [] then start else times[|times| - 1]
  }

  // Calls at nondecreasing times, none before `start`.
  predicate Clocked(start: real, times: seq<real>)
    decreases |times|
  {
    times == [] ||
    var n := |times| - 1;
    Clocked(start, times[..n]) && EndClock(start, times[..n]) <= times[n]
  }

  // The state after a run of calls, and the due times handed out, oldest first.
  datatype History = History(state: State, dues: seq<real>)

  function Play(l: Limits, s: State, times: seq<real>): History
    requires l.rate > 0.0
    decreases |times|
  {
    if times == [] then History(s, [])
    else
      var before := Play(l, s, times[..|times| - 1]);
      var (s', out) := AcquireStep(l, before.state, times[|times| - 1]);
      History(s', if out.Granted? then before.dues + [out.due] else before.dues)
  }

  // ---- the virtual-schedule form ----

  // The instant at which the bucket is full again, if nothing else is granted.
  function FullAt(l: Limits, s: State): real
    requires l.rate > 0.0
  {
    s.updated + (l.capacity - s.tokens) / l.rate
  }

  // The same limiter over that one number.
  function ScheduleDue(l: Limits, full: real, now: real): real
    requires l.rate > 0.0
  {
    Max(now, Max(full, now) - l.BurstSpan())
  }

  function ScheduleStep(l: Limits, full: real, now: real): (real, Outcome)
    requires l.rate > 0.0
  {
    var due := ScheduleDue(l, full, now);
    if due - now > l.maxWait then (Max(full, now), Refused(due - now))
    else (Max(full, now) + l.Interval(), Granted(due))
  }

  lemma Cancel(x: real, y: real, rate: real)
    requires rate > 0.0 && x * rate == y * rate
    ensures x == y
  {
    assert (x - y) * rate == 0.0;
  }

  lemma Quotient(x: real, rate: real)
    requires rate > 0.0
    ensures (x / rate) * rate == x
  {
  }

  lemma SignOfProduct(x: real, rate: real)
    requires rate > 0.0
    ensures x * rate >= 0.0 <==> x >= 0.0
  {
  }

  // A bucket read at `now` is full again after the tokens it misses have been refilled.
  lemma FullAfterRefill(l: Limits, s: State, now: real)
    requires l.Valid() && s.tokens <= l.capacity && s.updated <= now
    ensures (Max(FullAt(l, s), now) - now) * l.rate == l.capacity - Refilled(l, s, now)
  {
    var full := FullAt(l, s);
    Quotient(l.capacity - s.tokens, l.rate);
    calc {
      (full - now) * l.rate;
      ((l.capacity - s.tokens) / l.rate - (now - s.updated)) * l.rate;
      (l.capacity - s.tokens) / l.rate * l.rate - (now - s.updated) * l.rate;
      l.capacity - s.tokens - (now - s.updated) * l.rate;
    }
    SignOfProduct(full - now, l.rate);
  }

  // The token form and the schedule form take the same decision at the same instant.
  lemma AcquireRefinesSchedule(l: Limits, s: State, now: real)
    requires l.Valid() && s.tokens <= l.capacity && s.updated <= now
    ensures var (s', out) := AcquireStep(l, s, now);
      && (FullAt(l, s'), out) == ScheduleStep(l, FullAt(l, s), now)
      && s'.tokens <= l.capacity && s'.updated == now
  {
    var tokens := Refilled(l, s, now);
    var next := Max(FullAt(l, s), now);
    FullAfterRefill(l, s, now);
    DueAgrees(l, next - now, tokens);
    FullAgrees(l, next - now, tokens);
  }

  lemma DueAgrees(l: Limits, ahead: real, tokens: real)
    requires l.Valid() && ahead * l.rate == l.capacity - tokens
    ensures WaitFor(l, tokens) == Max(0.0, ahead - l.BurstSpan())
  {
    Quotient(1.0, l.rate);
    assert l.BurstSpan() * l.rate == (l.capacity - 1.0) * (l.Interval() * l.rate);
    var late := ahead - l.BurstSpan();
    assert late * l.rate == ahead * l.rate - l.BurstSpan() * l.rate == 1.0 - tokens;
    SignOfProduct(late, l.rate);
    if tokens < 1.0 {
      Quotient(1.0 - tokens, l.rate);
      Cancel(late, (1.0 - tokens) / l.rate, l.rate);
    }
  }

  lemma FullAgrees(l: Limits, ahead: real, tokens: real)
    requires l.Valid() && ahead * l.rate == l.capacity - tokens
    ensures (l.capacity - tokens) / l.rate == ahead
    ensures (l.capacity - (tokens - 1.0)) / l.rate == ahead + l.Interval()
  {
    Quotient(1.0, l.rate);
    Quotient(l.capacity - tokens, l.rate);
    Cancel(ahead, (l.capacity - tokens) / l.rate, l.rate);
    var later := ahead + l.Interval();
    assert later * l.rate == ahead * l.rate + l.Interval() * l.rate;
    Quotient(l.capacity - (tokens - 1.0), l.rate);
    Cancel(later, (l.capacity - (tokens - 1.0)) / l.rate, l.rate);
  }

  // ---- what holds over every run ----

  // Releasing the next call at d keeps every stretch of grants within capacity + rate * time.
  ghost predicate Conforms(l: Limits, dues: seq<real>, d: real) {
    forall i :: 0 <= i < |dues| ==> Fits(l, |dues| - i + 1, dues[i], d)
  }

  // The schedule never lags a grant, and once it is ahead of the clock it is pinned to one.
  ghost predicate Tracks(l: Limits, dues: seq<real>, full: real, clock: real)
    requires l.Valid()
  {
    && (forall i :: 0 <= i < |dues| ==> full >= Slot(l, dues, i))
    && (full <= clock || exists i :: 0 <= i < |dues| && full == Slot(l, dues, i))
    && (|dues| > 0 ==> dues[|dues| - 1] <= Max(clock, full - l.Interval() - l.BurstSpan()))
  }

  // The instant by which grant i and everything after it has been paid for.
  function Slot(l: Limits, dues: seq<real>, i: nat): real
    requires l.rate > 0.0 && i < |dues|
  {
    dues[i] + (|dues| - i) as real * l.Interval()
  }

  lemma SpanNonNegative(l: Limits)
    requires l.Valid()
    ensures l.Interval() > 0.0 && l.BurstSpan() >= 0.0
  {
    Quotient(1.0, l.rate);
    SignOfProduct(l.Interval(), l.rate);
    SignOfProduct(l.capacity - 1.0, l.Interval());
  }

  lemma SlotExtends(l: Limits, dues: seq<real>, d: real, i: nat)
    requires l.Valid() && i < |dues|
    ensures Slot(l, dues + [d], i) == Slot(l, dues, i) + l.Interval()
  {
    assert (|dues| + 1 - i) as real * l.Interval() == (|dues| - i) as real * l.Interval() + l.Interval();
  }

  // A grant pushes every slot, and the schedule, one interval back.
  lemma TracksGrant(l: Limits, dues: seq<real>, full: real, clock: real, now: real, due: real)
    requires l.Valid() && Tracks(l, dues, full, clock) && clock <= now && due == ScheduleDue(l, full, now)
    ensures Tracks(l, dues + [due], Max(full, now) + l.Interval(), now)
  {
    SpanNonNegative(l);
    var dues', full' := dues + [due], Max(full, now) + l.Interval();
    assert Slot(l, dues', |dues|) == due + 1.0 * l.Interval();
    forall i | 0 <= i < |dues'|
      ensures full' >= Slot(l, dues', i)
    {
      if i < |dues| {
        SlotExtends(l, dues, due, i);
      }
    }
    if full > now {
      var i :| 0 <= i < |dues| && full == Slot(l, dues, i);
      SlotExtends(l, dues, due, i);
      assert full' == Slot(l, dues', i);
    } else {
      assert full' == Slot(l, dues', |dues|);
    }
  }

  lemma TracksStep(l: Limits, dues: seq<real>, full: real, clock: real, now: real)
    requires l.Valid() && Tracks(l, dues, full, clock) && clock <= now
    ensures var (full', out) := ScheduleStep(l, full, now);
      Tracks(l, if out.Granted? then dues + [out.due] else dues, full', now)
  {
    var (full', out) := ScheduleStep(l, full, now);
    if out.Granted? {
      TracksGrant(l, dues, full, clock, now, out.due);
    } else if full > now {
      var i :| 0 <= i < |dues| && full == Slot(l, dues, i);
      assert full' == Slot(l, dues, i);
    }
  }

  lemma {:induction false} PlayTracks(l: Limits, start: real, times: seq<real>)
    requires l.Valid() && Clocked(start, times)
    ensures var h := Play(l, Start(l, start), times);
      && h.state.tokens <= l.capacity
      && h.state.updated == EndClock(start, times)
      && Tracks(l, h.dues, FullAt(l, h.state), h.state.updated)
    decreases |times|
  {
    if times == [] {
      Quotient(0.0, l.rate);
    } else {
      var n := |times| - 1;
      PlayTracks(l, start, times[..n]);
      var before := Play(l, Start(l, start), times[..n]);
      AcquireRefinesSchedule(l, before.state, times[n]);
      TracksStep(l, before.dues, FullAt(l, before.state), before.state.updated, times[n]);
    }
  }

  lemma ConformsIsSlotOrder(l: Limits, dues: seq<real>, i: nat, d: real)
    requires l.Valid() && i < |dues|
    ensures Fits(l, |dues| - i + 1, dues[i], d) <==> d >= Slot(l, dues, i) - l.BurstSpan()
  {
    Quotient(1.0, l.rate);
    var k := (|dues| - i) as real;
    var gap := d - (dues[i] + k * l.Interval() - l.BurstSpan());
    assert l.BurstSpan() * l.rate == (l.capacity - 1.0) * (l.Interval() * l.rate);
    assert k * l.Interval() * l.rate == k * (l.Interval() * l.rate);
    assert gap * l.rate == (d - dues[i]) * l.rate - k + (l.capacity - 1.0);
    SignOfProduct(gap, l.rate);
  }

  lemma ConformsIffDue(l: Limits, dues: seq<real>, full: real, clock: real, now: real, d: real)
    requires l.Valid() && Tracks(l, dues, full, clock) && clock <= now <= d
    ensures Conforms(l, dues, d) <==> ScheduleDue(l, full, now) <= d
  {
    SpanNonNegative(l);
    forall i | 0 <= i < |dues|
      ensures Fits(l, |dues| - i + 1, dues[i], d) <==> d >= Slot(l, dues, i) - l.BurstSpan()
    {
      ConformsIsSlotOrder(l, dues, i, d);
    }
    SlotsDecideDue(l, dues, full, clock, now, d);
  }

  lemma SlotsDecideDue(l: Limits, dues: seq<real>, full: real, clock: real, now: real, d: real)
    requires l.Valid() && Tracks(l, dues, full, clock) && clock <= now <= d && l.BurstSpan() >= 0.0
    ensures (forall i :: 0 <= i < |dues| ==> d >= Slot(l, dues, i) - l.BurstSpan())
       <==> ScheduleDue(l, full, now) <= d
  {
  }

  // A call and the run before it, in the schedule's terms.
  lemma NextCall(l: Limits, start: real, times: seq<real>, now: real)
    requires l.Valid() && Clocked(start, times + [now])
    ensures Clocked(start, times)
    ensures var h := Play(l, Start(l, start), times);
      && h.state.tokens <= l.capacity && h.state.updated <= now
      && Tracks(l, h.dues, FullAt(l, h.state), h.state.updated)
      && AcquireStep(l, h.state, now).1 == ScheduleStep(l, FullAt(l, h.state), now).1
    ensures var h, h' := Play(l, Start(l, start), times), Play(l, Start(l, start), times + [now]);
      var (full', out) := ScheduleStep(l, FullAt(l, h.state), now);
      && h'.dues == (if out.Granted? then h.dues + [out.due] else h.dues)
      && FullAt(l, h'.state) == full' && h'.state.updated == now
  {
    assert (times + [now])[..|times|] == times;
    PlayTracks(l, start, times);
    AcquireRefinesSchedule(l, Play(l, Start(l, start), times).state, now);
  }

  // The limiter is exact. After any run from a fresh bucket, the next call at `now` is due at
  // the earliest instant that keeps every stretch of grants within capacity + rate * time,
  // and it is refused exactly when that instant is more than maxWait away.
  lemma DueIsEarliestConforming(l: Limits, start: real, times: seq<real>, now: real)
    requires l.Valid() && Clocked(start, times + [now])
    ensures var h := Play(l, Start(l, start), times);
      var out := AcquireStep(l, h.state, now).1;
      var due := if out.Granted? then out.due else now + out.wait;
      && now <= due
      && (forall d :: now <= d ==> (Conforms(l, h.dues, d) <==> due <= d))
      && (out.Granted? <==> due - now <= l.maxWait)
  {
    NextCall(l, start, times, now);
    var h := Play(l, Start(l, start), times);
    forall d | now <= d
      ensures Conforms(l, h.dues, d) <==> ScheduleDue(l, FullAt(l, h.state), now) <= d
    {
      ConformsIffDue(l, h.dues, FullAt(l, h.state), h.state.updated, now, d);
    }
  }

  // Every stretch of releases is in order and within the envelope.
  ghost predicate AllConform(l: Limits, dues: seq<real>) {
    forall i, j :: 0 <= i <= j < |dues| ==> dues[i] <= dues[j] && Fits(l, j - i + 1, dues[i], dues[j])
  }

  // n releases between instants a and b.
  ghost predicate Fits(l: Limits, n: int, a: real, b: real) {
    n as real <= l.capacity + l.rate * (b - a)
  }

  lemma AllConformExtends(l: Limits, dues: seq<real>, d: real)
    requires l.Valid() && AllConform(l, dues) && Conforms(l, dues, d)
    requires |dues| > 0 ==> dues[|dues| - 1] <= d
    ensures AllConform(l, dues + [d])
  {
    var dues' := dues + [d];
    forall i, j | 0 <= i <= j < |dues'|
      ensures dues'[i] <= dues'[j] && Fits(l, j - i + 1, dues'[i], dues'[j])
    {
      if j < |dues| {
        assert dues[i] <= dues[j] && Fits(l, j - i + 1, dues[i], dues[j]);
      } else if i == j {
        assert dues'[j] - dues'[i] == 0.0;
      } else {
        assert dues[i] <= dues[|dues| - 1];
        assert Fits(l, |dues| - i + 1, dues[i], d);
      }
    }
  }

  lemma OrderKept(l: Limits, dues: seq<real>, full: real, clock: real, now: real)
    requires l.Valid() && Tracks(l, dues, full, clock) && clock <= now && |dues| > 0
    ensures dues[|dues| - 1] <= ScheduleDue(l, full, now)
  {
    SpanNonNegative(l);
  }

  // k consecutive releases between dues[i] and dues[j] number at most capacity + rate * elapsed,
  // and releases come out in call order.
  lemma {:induction false} RunConforms(l: Limits, start: real, times: seq<real>)
    requires l.Valid() && Clocked(start, times)
    ensures AllConform(l, Play(l, Start(l, start), times).dues)
    decreases |times|
  {
    if times != [] {
      var n := |times| - 1;
      assert times == times[..n] + [times[n]];
      NextCall(l, start, times[..n], times[n]);
      RunConforms(l, start, times[..n]);
      var before := Play(l, Start(l, start), times[..n]);
      var full, clock := FullAt(l, before.state), before.state.updated;
      var out := ScheduleStep(l, full, times[n]).1;
      if out.Granted? {
        ConformsIffDue(l, before.dues, full, clock, times[n], out.due);
        if |before.dues| > 0 {
          OrderKept(l, before.dues, full, clock, times[n]);
        }
        AllConformExtends(l, before.dues, out.due);
      }
    }
  }

  lemma DebtStep(l: Limits, s: State, now: real, debt: real)
    requires l.Valid() && s.tokens <= l.capacity && s.updated <= now
    requires debt == l.rate * Max(0.0, l.maxWait) && -s.tokens <= debt
    ensures -AcquireStep(l, s, now).0.tokens <= debt
  {
    SignOfProduct(Max(0.0, l.maxWait), l.rate);
    SignOfProduct(now - s.updated, l.rate);
    var tokens := Refilled(l, s, now);
    assert -tokens <= debt;
    if tokens < 1.0 {
      Quotient(1.0 - tokens, l.rate);
      var wait := (1.0 - tokens) / l.rate;
      assert wait == WaitFor(l, tokens);
      SignOfProduct(l.maxWait - wait, l.rate);
      SignOfProduct(wait, l.rate);
    }
  }

  // However many calls arrive, the reservations outstanding never exceed rate * maxWait.
  lemma {:induction false} DebtBounded(l: Limits, start: real, times: seq<real>)
    requires l.Valid() && Clocked(start, times)
    ensures -Play(l, Start(l, start), times).state.tokens <= l.rate * Max(0.0, l.maxWait)
    decreases |times|
  {
    if times == [] {
      SignOfProduct(Max(0.0, l.maxWait), l.rate);
    } else {
      var n := |times| - 1;
      assert times == times[..n] + [times[n]];
      NextCall(l, start, times[..n], times[n]);
      DebtBounded(l, start, times[..n]);
      DebtStep(l, Play(l, Start(l, start), times[..n]).state, times[n], l.rate * Max(0.0, l.maxWait));
    }
  }

  // ---- refused calls leave no trace ----

  function Kept(times: seq<real>, keep: seq<bool>): seq<real>
    requires |keep| == |times|
    decreases |times|
  {
    if times == [] then []
    else
      var n := |times| - 1;
      Kept(times[..n], keep[..n]) + (if keep[n] then [times[n]] else [])
  }

  // Two schedules that no later call can tell apart.
  ghost predicate SameSchedule(a: real, b: real, clock: real) {
    a == b || (a <= clock && b <= clock)
  }

  lemma {:induction false} KeptIsClocked(start: real, times: seq<real>, keep: seq<bool>)
    requires |keep| == |times| && Clocked(start, times)
    ensures Clocked(start, Kept(times, keep))
    ensures EndClock(start, Kept(times, keep)) <= EndClock(start, times)
    decreases |times|
  {
    if times != [] {
      var n := |times| - 1;
      KeptIsClocked(start, times[..n], keep[..n]);
      var kept := Kept(times[..n], keep[..n]);
      assert (kept + [times[n]])[..|kept|] == kept;
      assert kept + [] == kept;
    }
  }

  ghost predicate RefusedAt(l: Limits, start: real, times: seq<real>, now: real)
    requires l.rate > 0.0
  {
    AcquireStep(l, Play(l, Start(l, start), times).state, now).1.Refused?
  }

  lemma SameScheduleStep(l: Limits, a: real, b: real, clock: real, now: real)
    requires l.Valid() && SameSchedule(a, b, clock) && clock <= now
    ensures ScheduleStep(l, a, now) == ScheduleStep(l, b, now)
    ensures ScheduleStep(l, a, now).1.Refused? ==> SameSchedule(ScheduleStep(l, a, now).0, b, now)
  {
  }

  // Only refused calls are dropped.
  ghost predicate DropsOnlyRefused(l: Limits, start: real, times: seq<real>, keep: seq<bool>)
    requires l.rate > 0.0 && |keep| == |times|
    decreases |times|
  {
    times == [] ||
    var n := |times| - 1;
    DropsOnlyRefused(l, start, times[..n], keep[..n]) && (!keep[n] ==> RefusedAt(l, start, times[..n], times[n]))
  }

  // Dropping any of the refused calls from a run changes no release time.
  lemma {:induction false} RefusedCallsLeaveNoTrace(l: Limits, start: real, times: seq<real>, keep: seq<bool>)
    requires l.Valid() && Clocked(start, times) && |keep| == |times| && DropsOnlyRefused(l, start, times, keep)
    ensures var h, k := Play(l, Start(l, start), times), Play(l, Start(l, start), Kept(times, keep));
      h.dues == k.dues && SameSchedule(FullAt(l, h.state), FullAt(l, k.state), EndClock(start, times))
    decreases |times|
  {
    if times != [] {
      var n := |times| - 1;
      RefusedCallsLeaveNoTrace(l, start, times[..n], keep[..n]);
      var kept := Kept(times[..n], keep[..n]);
      KeptIsClocked(start, times[..n], keep[..n]);
      ClockedExtends(start, kept, times[n]);
      assert times == times[..n] + [times[n]];
      assert Kept(times, keep) == if keep[n] then kept + [times[n]] else kept;
      TraceStep(l, start, times[..n], kept, times[n], keep[n]);
    }
  }

  lemma ClockedExtends(start: real, times: seq<real>, now: real)
    requires Clocked(start, times) && EndClock(start, times) <= now
    ensures Clocked(start, times + [now])
  {
    assert (times + [now])[..|times|] == times;
  }

  // Two runs that no later call can tell apart take the next call alike, or one may skip it.
  lemma TraceStep(l: Limits, start: real, times: seq<real>, kept: seq<real>, now: real, keep: bool)
    requires l.Valid() && Clocked(start, times + [now]) && Clocked(start, kept + [now])
    requires !keep ==> RefusedAt(l, start, times, now)
    requires var h, k := Play(l, Start(l, start), times), Play(l, Start(l, start), kept);
      h.dues == k.dues && SameSchedule(FullAt(l, h.state), FullAt(l, k.state), EndClock(start, times))
    ensures var h := Play(l, Start(l, start), times + [now]);
      var k := Play(l, Start(l, start), if keep then kept + [now] else kept);
      h.dues == k.dues && SameSchedule(FullAt(l, h.state), FullAt(l, k.state), now)
  {
    NextCall(l, start, times, now);
    NextCall(l, start, kept, now);
    var h, k := Play(l, Start(l, start), times).state, Play(l, Start(l, start), kept).state;
    assert (times + [now])[..|times|] == times;
    SameScheduleStep(l, FullAt(l, h), FullAt(l, k), EndClock(start, times), now);
  }

  // ---- request pacing (_Pacer of backend/clients/daily_bar_sources.py) ----

  // (the next free start, this caller's start)
  function PaceStep(interval: real, next: real, now: real): (real, real) {
    if interval <= 0.0 then (next, now) else (Max(now, next) + interval, Max(now, next))
  }

  class Pacer {
    const interval: real
    var next: real

    constructor (interval: real)
      ensures this.interval == interval && next == 0.0
    {
      this.interval := interval;
      next := 0.0;
    }

    method Wait(now: real) returns (start: real)
      modifies this
      ensures (next, start) == PaceStep(interval, old(next), now)
    {
      if interval <= 0.0 {
        return now;
      }
      var delay := next - now;
      next := Max(now, next) + interval;
      start := if delay > 0.0 then now + delay else now;
    }
  }

  // The pacer is the bucket with room for a single token: the same schedule, the same starts.
  lemma PacerIsUnitBucket(l: Limits, next: real, now: real)
    requires l.Valid() && l.capacity == 1.0 && ScheduleDue(l, next, now) - now <= l.maxWait
    ensures var (next', start) := PaceStep(l.Interval(), next, now);
      ScheduleStep(l, next, now) == (next', Granted(start))
  {
    SpanNonNegative(l);
    assert l.BurstSpan() == 0.0;
  }

  // The starts a run of waits is given, and the next free one.
  datatype Paced = Paced(next: real, starts: seq<real>)

  function Waits(interval: real, next: real, times: seq<real>): Paced
    decreases |times|
  {
    if times == [] then Paced(next, [])
    else
      var n := |times| - 1;
      var before := Waits(interval, next, times[..n]);
      var (next', start) := PaceStep(interval, before.next, times[n]);
      Paced(next', before.starts + [start])
  }

  // Each start is at least `interval` after the one before it, and the last has been paid for.
  ghost predicate Spaced(interval: real, p: Paced) {
    && (forall i, j :: 0 <= i < j < |p.starts| ==> p.starts[j] - p.starts[i] >= (j - i) as real * interval)
    && (p.starts != [] ==> p.next == p.starts[|p.starts| - 1] + interval)
  }

  lemma SpacedExtends(interval: real, p: Paced, now: real)
    requires interval > 0.0 && Spaced(interval, p)
    ensures var (next, start) := PaceStep(interval, p.next, now); Spaced(interval, Paced(next, p.starts + [start]))
  {
    var (next, start) := PaceStep(interval, p.next, now);
    var n, starts := |p.starts|, p.starts + [start];
    forall i, j | 0 <= i < j <= n
      ensures starts[j] - starts[i] >= (j - i) as real * interval
    {
      if j == n {
        assert start >= p.starts[n - 1] + interval;
        assert (n - i) as real * interval == (n - 1 - i) as real * interval + interval;
      }
    }
  }

  // Whenever they are asked for, any two starts of one pacer are k intervals apart when k - 1
  // others come between them, and none is earlier than it was asked for.
  lemma {:induction false} StartsAreSpaced(interval: real, next: real, times: seq<real>)
    requires interval > 0.0
    ensures var p := Waits(interval, next, times);
      && Spaced(interval, p) && |p.starts| == |times|
      && forall i :: 0 <= i < |times| ==> p.starts[i] >= times[i]
    decreases |times|
  {
    if times != [] {
      var n := |times| - 1;
      StartsAreSpaced(interval, next, times[..n]);
      SpacedExtends(interval, Waits(interval, next, times[..n]), times[n]);
    }
  }

  // The first instant free after some starts.
  function FreeAfter(interval: real, next: real, starts: seq<real>): real {
    if starts == [] then next else starts[|starts| - 1] + interval
  }

  // Each start is the later of the instant it was asked for and the first one free.
  predicate Earliest(interval: real, next: real, times: seq<real>, starts: seq<real>)
    decreases |times|
  {
    if times == [] then starts == []
    else
      var n := |times| - 1;
      && |starts| == n + 1 && Earliest(interval, next, times[..n], starts[..n])
      && starts[n] == if FreeAfter(interval, next, starts[..n]) > times[n]
                      then FreeAfter(interval, next, starts[..n]) else times[n]
  }

  // So none is later than it has to be.
  lemma {:induction false} StartsAreEarliest(interval: real, next: real, times: seq<real>)
    requires interval > 0.0
    ensures var p := Waits(interval, next, times);
      p.next == FreeAfter(interval, next, p.starts) && Earliest(interval, next, times, p.starts)
    decreases |times|
  {
    if times != [] {
      var n := |times| - 1;
      StartsAreEarliest(interval, next, times[..n]);
      WaitsExtend(interval, next, times);
    }
  }

  lemma WaitsExtend(interval: real, next: real, times: seq<real>)
    requires times != []
    ensures var before, after := Waits(interval, next, times[..|times| - 1]), Waits(interval, next, times);
      var n := |before.starts|;
      |after.starts| == n + 1 && after.starts[..n] == before.starts
  {
  }

  // A pacer without an interval never delays.
  lemma {:induction false} NoIntervalNoDelay(interval: real, next: real, times: seq<real>)
    requires interval <= 0.0
    ensures Waits(interval, next, times) == Paced(next, times)
    decreases |times|
  {
    if times != [] {
      var n := |times| - 1;
      NoIntervalNoDelay(interval, next, times[..n]);
      assert times == times[..n] + [times[n]];
    }
  }
}
