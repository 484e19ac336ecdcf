/** What the ATR trailing stop means: the modified true range, the two Wilders averages, and the
    long/short flip machine, each given as a function of a session's bars and an index. The batch
    engine (AtrBatch) and the streaming engine (AtrStream) are both proved against this module. */
module AtrTrail {
  import opened Arithmetic
  import opened Wrappers

  datatype Bar = Bar(ts: int, open: real, high: real, low: real, close: real, volume: int)

  datatype Side = Long | Short

  datatype Flip = Buy | Sell

  const GAP_BOUND_MS := 90_000

  /** `seed` is compared with "sma5" only: every other string selects the first-value seed. */
  datatype Settings = Settings(period: nat, factor: real, seed: string, guard: bool)

  ghost predicate Usable(s: Settings) {
    s.period >= 1
  }

  // ---------------------------------------------------------------- true range

  function Span(b: Bar): real { b.high - b.low }

  function Spans(bars: seq<Bar>): (r: seq<real>)
    ensures |r| == |bars|
  {
    seq(|bars|, i requires 0 <= i < |bars| => Span(bars[i]))
  }

  /** Left-to-right sum, as Python's `sum` adds. */
  function Sum(xs: seq<real>): real {
    if xs == [] then 0.0 else Sum(xs[..|xs| - 1]) + xs[|xs| - 1]
  }

  /** The first bar that has a predecessor and a full high-low window. */
  function FirstValid(period: nat): nat {
    if period <= 1 then 1 else period - 1
  }

  function Mean(xs: seq<real>, period: nat): real
    requires period >= 1
  {
    Ratio(Sum(xs), period as real)
  }

  function Capped(span: real, average: real): real { Min(span, 1.5 * average) }

  /** The last bar's span, capped at 1.5 times the average of the last `period` spans. */
  function CappedSpan(h: seq<Bar>, period: nat): real
    requires period >= 1 && |h| > FirstValid(period)
  {
    Capped(Span(Last(h)), Mean(Spans(h[|h| - period..]), period))
  }

  function Last(h: seq<Bar>): Bar
    requires |h| > 0
  {
    h[|h| - 1]
  }

  function Front(h: seq<Bar>): seq<Bar>
    requires |h| > 0
  {
    h[..|h| - 1]
  }

  /** The part of an opening gap that counts: nothing when the bars overlap. */
  function Gap(x: real): real { Max(x, 0.0) }

  /** Half of an opening gap is taken off the distance to the previous close. */
  function Unguarded(prev: Bar, cur: Bar, capped: real): real {
    Max(capped, Max(cur.high - prev.close - 0.5 * Gap(cur.low - prev.high),
                    prev.close - cur.low - 0.5 * Gap(prev.low - cur.high)))
  }

  /** The modified true range of the last bar. */
  function TrueRange(h: seq<Bar>, s: Settings): real
    requires Usable(s) && |h| > FirstValid(s.period)
  {
    var capped := CappedSpan(h, s.period);
    if s.guard && h[|h| - 1].ts - h[|h| - 2].ts > GAP_BOUND_MS then capped
    else Unguarded(h[|h| - 2], h[|h| - 1], capped)
  }

  /** The true ranges of all the valid bars, oldest first. */
  function TrueRanges(h: seq<Bar>, s: Settings): (r: seq<real>)
    requires Usable(s)
    ensures |r| == if |h| > FirstValid(s.period) then |h| - FirstValid(s.period) else 0
  {
    if |h| <= FirstValid(s.period) then [] else TrueRanges(Front(h), s) + [TrueRange(h, s)]
  }

  // ---------------------------------------------------------------- Wilders average

  /** The index of the bar that seeds the average. */
  function SeedBar(s: Settings): nat
    requires Usable(s)
  {
    if s.seed == "sma5" then FirstValid(s.period) + s.period - 1 else FirstValid(s.period)
  }

  predicate Seeded(h: seq<Bar>, s: Settings)
    requires Usable(s)
  {
    |h| > SeedBar(s)
  }

  /** One step of the recursive average. */
  function Smooth(w: real, t: real, period: nat): real
    requires period >= 1
  {
    w + Ratio(t - w, period as real)
  }

  function Wilders(h: seq<Bar>, s: Settings): real
    requires Usable(s) && Seeded(h, s)
  {
    if |h| > SeedBar(s) + 1 then Smooth(Wilders(Front(h), s), TrueRange(h, s), s.period)
    else if s.seed == "sma5" then Mean(TrueRanges(h, s), s.period)
    else TrueRange(h, s)
  }

  function LossOf(factor: real, average: real): real { Times(factor, average) }

  function Loss(h: seq<Bar>, s: Settings): real
    requires Usable(s) && Seeded(h, s)
  {
    LossOf(s.factor, Wilders(h, s))
  }

  // ---------------------------------------------------------------- flip machine

  /** `age` counts the bars since the current state began. */
  datatype Stop = Stop(side: Side, level: real, flip: Option<Flip>, age: nat)

  /** A new stop sits one loss away from the close, on the losing side. */
  function Placed(side: Side, close: real, loss: real): real {
    if side.Long? then close - loss else close + loss
  }

  /** The stop held so far is breached when the close reaches it. */
  predicate Breached(stop: Stop, close: real) {
    if stop.side.Long? then close <= stop.level else stop.level <= close
  }

  function Opposite(side: Side): Side { if side.Long? then Short else Long }

  function Tighter(side: Side, a: real, b: real): real { if side.Long? then Max(a, b) else Min(a, b) }

  /** A breach turns the position round; otherwise the stop only ever tightens. */
  function Advance(stop: Stop, close: real, loss: real): Stop {
    if Breached(stop, close) then
      Stop(Opposite(stop.side), Placed(Opposite(stop.side), close, loss),
           Some(if stop.side.Long? then Sell else Buy), 0)
    else
      Stop(stop.side, Tighter(stop.side, stop.level, Placed(stop.side, close, loss)), None, stop.age + 1)
  }

  /** The stop in force after the last bar. */
  function StopAfter(h: seq<Bar>, s: Settings): Stop
    requires Usable(s) && Seeded(h, s)
  {
    if |h| == SeedBar(s) + 1 then Stop(Long, Placed(Long, Last(h).close, Loss(h, s)), None, 0)
    else Advance(StopAfter(Front(h), s), Last(h).close, Loss(h, s))
  }

  // ---------------------------------------------------------------- per-bar rows

  /** What both engines report for a bar, unrounded; absent until the average is seeded. */
  datatype Row = Row(bar: Bar, tr: Option<real>, wilders: Option<real>, loss: Option<real>, stop: Option<Stop>)

  /** The row of the last bar: a function of the bars so far, so it cannot look ahead. */
  function RowAfter(h: seq<Bar>, s: Settings): Row
    requires Usable(s) && |h| > 0
  {
    Row(Last(h),
        if |h| > FirstValid(s.period) then Some(TrueRange(h, s)) else None,
        if Seeded(h, s) then Some(Wilders(h, s)) else None,
        if Seeded(h, s) then Some(Loss(h, s)) else None,
        if Seeded(h, s) then Some(StopAfter(h, s)) else None)
  }

  /** The bars up to and including bar i. */
  function Upto(bars: seq<Bar>, i: nat): (h: seq<Bar>)
    requires i < |bars|
    ensures |h| == i + 1
  {
    bars[..i + 1]
  }

  /** The rows of one run over `bars`. */
  function Rows(bars: seq<Bar>, s: Settings): (r: seq<Row>)
    requires Usable(s)
    ensures |r| == |bars|
  {
    if bars == [] then [] else Rows(Front(bars), s) + [RowAfter(bars, s)]
  }

  /** Row i is the row of the bars up to bar i. */
  lemma {:induction false} RowIs(bars: seq<Bar>, s: Settings, i: nat)
    requires Usable(s) && i < |bars|
    ensures Rows(bars, s)[i] == RowAfter(Upto(bars, i), s)
  {
    hide RowAfter;
    if i == |bars| - 1 {
      assert Upto(bars, i) == bars;
    } else {
      RowIs(Front(bars), s, i);
      assert Upto(Front(bars), i) == Upto(bars, i);
    }
  }

  ghost predicate Shaped(row: Row, s: Settings, i: nat)
    requires Usable(s)
  {
    && (row.tr.Some? <==> FirstValid(s.period) <= i)
    && (row.wilders.Some? <==> SeedBar(s) <= i)
    && (row.loss.Some? <==> SeedBar(s) <= i)
    && (row.stop.Some? <==> SeedBar(s) <= i)
  }

  ghost predicate Follows(row: Row, prev: Row, s: Settings)
    requires Usable(s)
  {
    && row.tr.Some? && row.wilders.Some? && row.loss.Some? && row.stop.Some?
    && prev.wilders.Some? && prev.stop.Some?
    && row.wilders.value == Smooth(prev.wilders.value, row.tr.value, s.period)
    && row.loss.value == LossOf(s.factor, row.wilders.value)
    && row.stop.value == Advance(prev.stop.value, row.bar.close, row.loss.value)
  }

  ghost predicate Opens(row: Row, s: Settings) {
    && row.wilders.Some? && row.loss.Some? && row.stop.Some?
    && row.loss.value == LossOf(s.factor, row.wilders.value)
    && row.stop.value == Stop(Long, Placed(Long, row.bar.close, row.loss.value), None, 0)
  }

  /** Which columns the row of the last bar has, and how it follows from the row before. */
  lemma {:induction false} HistoryRecurrence(h: seq<Bar>, s: Settings)
    requires Usable(s) && |h| > 0
    ensures RowAfter(h, s).bar == Last(h)
    ensures Shaped(RowAfter(h, s), s, |h| - 1)
    ensures |h| == SeedBar(s) + 1 ==> Opens(RowAfter(h, s), s)
    ensures |h| > SeedBar(s) + 1 ==> Follows(RowAfter(h, s), RowAfter(Front(h), s), s)
  {
    hide TrueRange, Smooth, Mean, Advance, Placed, LossOf;
  }

  /** The same for row i of a run. */
  lemma {:induction false} RowRecurrence(bars: seq<Bar>, s: Settings, i: nat)
    requires Usable(s) && i < |bars|
    ensures Rows(bars, s)[i].bar == bars[i]
    ensures Shaped(Rows(bars, s)[i], s, i)
    ensures i == SeedBar(s) ==> Opens(Rows(bars, s)[i], s)
    ensures i > SeedBar(s) ==> Follows(Rows(bars, s)[i], Rows(bars, s)[i - 1], s)
  {
    hide Rows, RowAfter, Shaped, Opens, Follows;
    HistoryRecurrence(Upto(bars, i), s);
    RowIs(bars, s, i);
    if i > SeedBar(s) {
      RowIs(bars, s, i - 1);
      assert Front(Upto(bars, i)) == Upto(bars, i - 1);
    }
  }

  /** How the average is seeded. */
  lemma {:induction false} SeedRecurrence(bars: seq<Bar>, s: Settings)
    requires Usable(s) && SeedBar(s) < |bars|
    ensures var rows := Rows(bars, s);
      var ranges := TrueRanges(Upto(bars, SeedBar(s)), s);
      && |ranges| == SeedBar(s) + 1 - FirstValid(s.period)
      && (forall k :: 0 <= k < |ranges| ==> rows[FirstValid(s.period) + k].tr == Some(ranges[k]))
      && rows[SeedBar(s)].wilders == Some(if s.seed == "sma5" then Mean(ranges, s.period) else ranges[0])
  {
    hide Rows, TrueRange, Mean, StopAfter, Loss;
    var h := Upto(bars, SeedBar(s));
    RowIs(bars, s, SeedBar(s));
    forall k | 0 <= k < |TrueRanges(h, s)|
      ensures Rows(bars, s)[FirstValid(s.period) + k].tr == Some(TrueRanges(h, s)[k])
    {
      RowIs(bars, s, FirstValid(s.period) + k);
      RangeElement(h, s, k);
      assert Upto(h, FirstValid(s.period) + k) == Upto(bars, FirstValid(s.period) + k);
    }
  }

  lemma {:induction false} RangeElement(h: seq<Bar>, s: Settings, k: nat)
    requires Usable(s) && k < |TrueRanges(h, s)|
    ensures TrueRanges(h, s)[k] == TrueRange(Upto(h, FirstValid(s.period) + k), s)
  {
    hide TrueRange;
    var n := FirstValid(s.period) + k;
    if n == |h| - 1 {
      assert Upto(h, n) == h;
    } else {
      RangeElement(Front(h), s, k);
      assert Upto(Front(h), n) == Upto(h, n);
    }
  }
}
