// Fair value gaps (backend/analysis/fvg.py): the batch scan over a frame of bars, and the
// one-pass description it must agree with. An unusable ATR reading (missing or not finite) is None.
module FairValueGaps {
  import opened Options

  datatype Bar = Bar(high: real, low: real, close: real, atr: Option<real>)

  datatype Side = Bullish | Bearish

  datatype Fvg = Fvg(side: Side, top: real, bottom: real, c3: nat, start: nat, end: Option<nat>)

  // The zone a third candle makes with the first, if it is tall enough against the ATR at c3.
  datatype Zone = Zone(side: Side, top: real, bottom: real)

  predicate TallEnough(height: real, atr: Option<real>, mult: real) {
    atr.Some? && atr.value > 0.0 && height > 0.0 && height > mult * atr.value
  }

  function ZoneAt(c1: Bar, c3: Bar, mult: real): Option<Zone> {
    if TallEnough(c3.low - c1.high, c3.atr, mult) then Some(Zone(Bullish, c3.low, c1.high))
    else if TallEnough(c1.low - c3.high, c3.atr, mult) then Some(Zone(Bearish, c1.low, c3.high))
    else None
  }

  // A close beyond the far side ends the zone.
  predicate Breaks(z: Zone, close: real) {
    if z.side == Bullish then close < z.bottom else close > z.top
  }

  // ---- the batch description: each gap on its own, over the finished frame ----

  // The first bar from `from` on that breaks the zone.
  function FirstBreak(bars: seq<Bar>, z: Zone, from: nat): Option<nat>
    decreases |bars| - from
  {
    if from >= |bars| then None
    else if Breaks(z, bars[from].close) then Some(from)
    else FirstBreak(bars, z, from + 1)
  }

  function GapAt(bars: seq<Bar>, i: nat, z: Zone): Fvg {
    Fvg(z.side, z.top, z.bottom, i, i + 1, FirstBreak(bars, z, i + 1))
  }

  // The gaps whose third candle is among the first n bars, in order.
  function GapsUpTo(bars: seq<Bar>, mult: real, n: nat): seq<Fvg>
    requires n <= |bars|
  {
    if n < 3 then []
    else
      var z := ZoneAt(bars[n - 3], bars[n - 1], mult);
      GapsUpTo(bars, mult, n - 1) + (if z.Some? then [GapAt(bars, n - 1, z.value)] else [])
  }

  function Gaps(bars: seq<Bar>, mult: real): seq<Fvg> {
    GapsUpTo(bars, mult, |bars|)
  }

  // The source's loop: candidates in order, each with its own search for the end.
  method DetectFvgs(bars: seq<Bar>, mult: real) returns (out: seq<Fvg>)
    ensures out == Gaps(bars, mult)
  {
    out := [];
    if |bars| < 3 {
      return;
    }
    for i := 2 to |bars|
      invariant out == GapsUpTo(bars, mult, i)
    {
      var z := ZoneAt(bars[i - 2], bars[i], mult);
      if z.Some? {
        var end: Option<nat> := None;
        var j := i + 1;
        while j < |bars|
          invariant i + 1 <= j <= |bars|
          invariant FirstBreak(bars, z.value, i + 1) == if end.Some? then end else FirstBreak(bars, z.value, j)
        {
          if end.None? && Breaks(z.value, bars[j].close) {
            end := Some(j);
          }
          j := j + 1;
        }
        out := out + [Fvg(z.value.side, z.value.top, z.value.bottom, i, i + 1, end)];
      }
    }
  }

  // ---- the one-pass description ----

  function ZoneOf(g: Fvg): Zone { Zone(g.side, g.top, g.bottom) }

  // What the next bar does to the gaps so far: it ends the open ones it breaks, and may open one.
  function Updated(g: Fvg, close: real, at: nat): Fvg {
    if g.end.None? && Breaks(ZoneOf(g), close) then g.(end := Some(at)) else g
  }

  function UpdatedAll(gaps: seq<Fvg>, close: real, at: nat): (out: seq<Fvg>)
    ensures |out| == |gaps|
    ensures forall k :: 0 <= k < |gaps| ==> out[k] == Updated(gaps[k], close, at)
  {
    if gaps == [] then [] else UpdatedAll(gaps[..|gaps| - 1], close, at) + [Updated(gaps[|gaps| - 1], close, at)]
  }

  function Streamed(bars: seq<Bar>, mult: real): seq<Fvg>
    decreases |bars|
  {
    if bars == [] then []
    else
      var n := |bars| - 1;
      var gaps := UpdatedAll(Streamed(bars[..n], mult), bars[n].close, n);
      gaps + Opened(bars[..n], bars[n], mult)
  }

  // ---- they agree ----

  // One more bar decides the end of a zone exactly when nothing before it has.
  lemma {:induction false} FirstBreakExtends(bars: seq<Bar>, b: Bar, z: Zone, from: nat)
    requires from <= |bars|
    ensures FirstBreak(bars + [b], z, from) ==
      var before := FirstBreak(bars, z, from);
      if before.Some? then before else if Breaks(z, b.close) then Some(|bars|) else None
    decreases |bars| - from
  {
    if from == |bars| {
      assert FirstBreak(bars + [b], z, from + 1) == None;
    } else {
      assert (bars + [b])[from] == bars[from];
      FirstBreakExtends(bars, b, z, from + 1);
    }
  }

  lemma {:induction false} GapsExtend(bars: seq<Bar>, b: Bar, mult: real, n: nat)
    requires n <= |bars|
    ensures GapsUpTo(bars + [b], mult, n) == UpdatedAll(GapsUpTo(bars, mult, n), b.close, |bars|)
    decreases n
  {
    if n >= 3 {
      GapsExtend(bars, b, mult, n - 1);
      var z := ZoneAt(bars[n - 3], bars[n - 1], mult);
      assert (bars + [b])[n - 3] == bars[n - 3] && (bars + [b])[n - 1] == bars[n - 1];
      if z.Some? {
        FirstBreakExtends(bars, b, z.value, n);
        UpdateLast(GapsUpTo(bars, mult, n - 1), GapAt(bars, n - 1, z.value), b.close, |bars|);
      }
    }
  }

  lemma UpdateLast(gaps: seq<Fvg>, g: Fvg, close: real, at: nat)
    ensures UpdatedAll(gaps + [g], close, at) == UpdatedAll(gaps, close, at) + [Updated(g, close, at)]
  {
    assert (gaps + [g])[..|gaps|] == gaps;
  }

  // The batch scan of any frame is the one-pass scan of its bars.
  lemma {:induction false} BatchIsStream(bars: seq<Bar>, mult: real)
    ensures Gaps(bars, mult) == Streamed(bars, mult)
    decreases |bars|
  {
    if bars != [] {
      var n := |bars| - 1;
      BatchIsStream(bars[..n], mult);
      assert bars == bars[..n] + [bars[n]];
      GapsAppend(bars[..n], bars[n], mult);
    }
  }

  // The gap, if any, whose third candle is the bar appended.
  function Opened(bars: seq<Bar>, b: Bar, mult: real): seq<Fvg> {
    var n := |bars|;
    var z := if n < 2 then None else ZoneAt(bars[n - 2], b, mult);
    if z.Some? then [Fvg(z.value.side, z.value.top, z.value.bottom, n, n + 1, None)] else []
  }

  // What one more bar does to the batch scan.
  lemma GapsAppend(bars: seq<Bar>, b: Bar, mult: real)
    ensures Gaps(bars + [b], mult) == UpdatedAll(Gaps(bars, mult), b.close, |bars|) + Opened(bars, b, mult)
  {
    var n, all := |bars|, bars + [b];
    if n >= 2 {
      GapsExtend(bars, b, mult, n);
      assert all[n - 2] == bars[n - 2] && all[n] == b;
      LastGap(bars, b, mult);
    }
  }

  lemma LastGap(bars: seq<Bar>, b: Bar, mult: real)
    requires |bars| >= 2
    ensures Gaps(bars + [b], mult) == GapsUpTo(bars + [b], mult, |bars|) + Opened(bars, b, mult)
  {
    var n, all := |bars|, bars + [b];
    assert all[n - 2] == bars[n - 2] && all[n] == b;
    var z := ZoneAt(bars[n - 2], b, mult);
    if z.Some? {
      assert FirstBreak(all, z.value, n + 1) == None;
    }
  }

  // A later state of a gap: identical once closed; while open it may only be closed, by a bar
  // that was not there before.
  ghost predicate Continues(g: Fvg, later: Fvg, known: nat) {
    if g.end.Some? then later == g
    else later.(end := None) == g && (later.end.Some? ==> later.end.value >= known)
  }

  ghost predicate ContinuesAll(before: seq<Fvg>, after: seq<Fvg>, known: nat) {
    && |before| <= |after|
    && (forall k :: 0 <= k < |before| ==> Continues(before[k], after[k], known))
    && (forall k :: |before| <= k < |after| ==> after[k].c3 >= known)
  }

  // Appending bars never changes a closed gap, never removes or reorders one, and every gap it
  // adds has its third candle among the new bars.
  lemma {:induction false} AppendOnlyContinues(bars: seq<Bar>, more: seq<Bar>, mult: real)
    ensures ContinuesAll(Gaps(bars, mult), Gaps(bars + more, mult), |bars|)
    decreases |more|
  {
    if more == [] {
      assert bars + more == bars;
    } else {
      var m := |more| - 1;
      AppendOnlyContinues(bars, more[..m], mult);
      var all, next := bars + more[..m], more[m];
      assert bars + more == all + [next];
      GapsAppend(all, next, mult);
    }
  }

  // The third candle lies wholly above the first, by more than `mult` of its own ATR.
  ghost predicate RisesOver(c1: Bar, c3: Bar, mult: real) {
    c3.atr.Some? && 0.0 < c3.atr.value && c1.high < c3.low && c3.low - c1.high > mult * c3.atr.value
  }

  // Or wholly below it.
  ghost predicate FallsUnder(c1: Bar, c3: Bar, mult: real) {
    c3.atr.Some? && 0.0 < c3.atr.value && c3.high < c1.low && c1.low - c3.high > mult * c3.atr.value
  }

  // A close below a bullish gap, or above a bearish one.
  ghost predicate Beyond(g: Fvg, close: real) {
    match g.side
    case Bullish => close < g.bottom
    case Bearish => g.top < close
  }

  // What a reported gap means: the first and third candles leave it, and it lies between them;
  // every close after c3 and before its end stays on the near side, and the end, if any, is beyond
  // the far side.
  ghost predicate Meaningful(bars: seq<Bar>, mult: real, g: Fvg) {
    && 2 <= g.c3 < |bars| && g.start == g.c3 + 1
    && LeftBy(bars[g.c3 - 2], bars[g.c3], mult, g)
    && (g.end.Some? ==> g.start <= g.end.value < |bars| && Beyond(g, bars[g.end.value].close))
    && forall j :: g.start <= j < (if g.end.Some? then g.end.value else |bars|) ==> !Beyond(g, bars[j].close)
  }

  ghost predicate LeftBy(c1: Bar, c3: Bar, mult: real, g: Fvg) {
    match g.side
    case Bullish => RisesOver(c1, c3, mult) && g.top == c3.low && g.bottom == c1.high
    case Bearish => FallsUnder(c1, c3, mult) && !RisesOver(c1, c3, mult) && g.top == c1.low && g.bottom == c3.high
  }

  lemma ZoneIsLeft(c1: Bar, c3: Bar, mult: real)
    ensures ZoneAt(c1, c3, mult).Some? <==> RisesOver(c1, c3, mult) || FallsUnder(c1, c3, mult)
    ensures forall g: Fvg :: ZoneAt(c1, c3, mult) == Some(ZoneOf(g)) ==> LeftBy(c1, c3, mult, g)
  {
  }

  lemma {:induction false} FirstBreakIsFirst(bars: seq<Bar>, z: Zone, from: nat)
    requires from <= |bars|
    ensures var end := FirstBreak(bars, z, from);
      && (end.Some? ==> from <= end.value < |bars| && Breaks(z, bars[end.value].close))
      && forall j :: from <= j < (if end.Some? then end.value else |bars|) ==> !Breaks(z, bars[j].close)
    decreases |bars| - from
  {
    if from < |bars| && !Breaks(z, bars[from].close) {
      FirstBreakIsFirst(bars, z, from + 1);
    }
  }

  // The gaps are exactly the third candles before n that leave one, in order.
  ghost predicate Exactly(bars: seq<Bar>, mult: real, gaps: seq<Fvg>, n: nat)
    requires n <= |bars|
  {
    && (forall k :: 0 <= k < |gaps| ==> Meaningful(bars, mult, gaps[k]) && gaps[k].c3 < n)
    && (forall j, k :: 0 <= j < k < |gaps| ==> gaps[j].c3 < gaps[k].c3)
    && (forall i :: 2 <= i < n ==>
          ThirdCandle(gaps, i) || (!RisesOver(bars[i - 2], bars[i], mult) && !FallsUnder(bars[i - 2], bars[i], mult)))
  }

  ghost predicate ThirdCandle(gaps: seq<Fvg>, i: nat) {
    exists k :: 0 <= k < |gaps| && gaps[k].c3 == i
  }

  lemma {:induction false} GapsExact(bars: seq<Bar>, mult: real, n: nat)
    requires n <= |bars|
    ensures Exactly(bars, mult, GapsUpTo(bars, mult, n), n)
    decreases n
  {
    if n >= 3 {
      GapsExact(bars, mult, n - 1);
      var z := ZoneAt(bars[n - 3], bars[n - 1], mult);
      ZoneIsLeft(bars[n - 3], bars[n - 1], mult);
      if z.Some? {
        FirstBreakIsFirst(bars, z.value, n);
        ExactlyWith(bars, mult, GapsUpTo(bars, mult, n - 1), n, GapAt(bars, n - 1, z.value));
      } else {
        assert GapsUpTo(bars, mult, n - 1) + [] == GapsUpTo(bars, mult, n - 1);
      }
    }
  }

  lemma ExactlyWith(bars: seq<Bar>, mult: real, gaps: seq<Fvg>, n: nat, g: Fvg)
    requires 1 <= n <= |bars| && Exactly(bars, mult, gaps, n - 1) && Meaningful(bars, mult, g) && g.c3 == n - 1
    ensures Exactly(bars, mult, gaps + [g], n)
  {
    var all := gaps + [g];
    assert all[|gaps|].c3 == n - 1;
    forall i | 2 <= i < n && (i == n - 1 || ThirdCandle(gaps, i))
      ensures ThirdCandle(all, i)
    {
      if i < n - 1 {
        var k :| 0 <= k < |gaps| && gaps[k].c3 == i;
        assert all[k] == gaps[k];
      }
    }
  }

  // With sound bars (no low above its high) a candle never leaves a gap on both sides, so taking
  // the bullish reading first loses nothing.
  lemma NeverBothSides(c1: Bar, c3: Bar, mult: real)
    requires c1.low <= c1.high && c3.low <= c3.high
    ensures !(RisesOver(c1, c3, mult) && FallsUnder(c1, c3, mult))
    ensures ZoneAt(c1, c3, mult).Some? ==> ZoneAt(c1, c3, mult).value.bottom < ZoneAt(c1, c3, mult).value.top
  {
  }
}
