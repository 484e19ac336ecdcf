/** The streaming engine of scripts/compare_tos_modified_atr.py: one pass with a bounded deque, a
    seed buffer and a running average, optionally reset at session anchors and guarded against gaps.
    Each bar's stage is the batch row of its own session block. */
module AtrStream {
  import opened Arithmetic
  import opened Sequences
  import opened Wrappers
  import opened AtrTrail

  datatype Stage = Stage(
    bar: Bar, anchor: int, reset: bool, gapMs: int, highLow: real,
    modifiedTr: Option<real>, wilders: Option<real>, loss: Option<real>,
    trail: Option<real>, state: Option<Side>, flip: Option<Flip>)

  // ---------------------------------------------------------------- session blocks

  predicate Boundary(bars: seq<Bar>, anchorOf: int -> int, sliced: bool, i: nat)
    requires i < |bars|
  {
    i == 0 || (sliced && anchorOf(bars[i].ts) != anchorOf(bars[i - 1].ts))
  }

  /** The first bar of the maximal same-anchor block that holds bar i. */
  function BlockStart(bars: seq<Bar>, anchorOf: int -> int, sliced: bool, i: nat): (b: nat)
    requires i < |bars|
    ensures b <= i && Boundary(bars, anchorOf, sliced, b)
    ensures forall k :: b < k <= i ==> !Boundary(bars, anchorOf, sliced, k)
  {
    if Boundary(bars, anchorOf, sliced, i) then i else BlockStart(bars, anchorOf, sliced, i - 1)
  }

  /** The batch row of bar i within its block. */
  function BlockRow(bars: seq<Bar>, anchorOf: int -> int, sliced: bool, s: Settings, i: nat): Row
    requires Usable(s) && i < |bars|
  {
    RowAfter(bars[BlockStart(bars, anchorOf, sliced, i)..i + 1], s)
  }

  /** The stage shows the row's columns. */
  ghost predicate Shows(stage: Stage, row: Row) {
    && stage.bar == row.bar
    && stage.modifiedTr == row.tr && stage.wilders == row.wilders && stage.loss == row.loss
    && match row.stop {
       case None => stage.trail == None && stage.state == None && stage.flip == None
       case Some(stop) => stage.trail == Some(stop.level) && stage.state == Some(stop.side) && stage.flip == stop.flip
       }
  }

  /** What a stage says about its place in the series. */
  ghost predicate InContext(stage: Stage, bars: seq<Bar>, anchorOf: int -> int, sliced: bool, i: nat)
    requires i < |bars|
  {
    var first := Boundary(bars, anchorOf, sliced, i);
    && stage.anchor == anchorOf(bars[i].ts)
    && stage.highLow == bars[i].high - bars[i].low
    && stage.gapMs == (if first then 0 else bars[i].ts - bars[i - 1].ts)
    && (stage.reset <==> i > 0 && first && anchorOf(bars[i - 1].ts) != 0)
  }

  /** The stage of bar i: its columns and its context. */
  ghost predicate Correct(stage: Stage, bars: seq<Bar>, anchorOf: int -> int, sliced: bool, s: Settings, i: nat)
    requires Usable(s) && i < |bars|
  {
    Shows(stage, BlockRow(bars, anchorOf, sliced, s, i)) && InContext(stage, bars, anchorOf, sliced, i)
  }

  /** `stages` is the streaming output for the given settings. */
  ghost predicate IsStream(stages: seq<Stage>, bars: seq<Bar>, anchorOf: int -> int, sliced: bool, s: Settings)
    requires Usable(s)
  {
    |stages| == |bars| && forall i :: 0 <= i < |bars| ==> Correct(stages[i], bars, anchorOf, sliced, s, i)
  }

  // ---------------------------------------------------------------- the pass

  /** The spans that a deque of length `period` holds after the block. */
  function LastSpans(block: seq<Bar>, period: nat): (r: seq<real>) {
    Spans(block[if |block| > period then |block| - period else 0..])
  }

  /** A full deque drops its oldest span when one is appended. */
  lemma {:induction false} PushSpan(block: seq<Bar>, bar: Bar, period: nat)
    requires period >= 1
    ensures var held := LastSpans(block, period);
      |LastSpans(block + [bar], period)| == (if |block| < period then |block| + 1 else period)
      && LastSpans(block + [bar], period) == (if |held| == period then held[1..] else held) + [Span(bar)]
  {
  }

  lemma {:induction false} RangeAfter(block: seq<Bar>, s: Settings)
    requires Usable(s) && |block| > FirstValid(s.period)
    ensures |LastSpans(block, s.period)| == s.period
    ensures var prev, cur := block[|block| - 2], block[|block| - 1];
      var capped := Capped(Span(cur), Mean(LastSpans(block, s.period), s.period));
      RowAfter(block, s).tr
      == Some(if s.guard && cur.ts - prev.ts > GAP_BOUND_MS then capped else Unguarded(prev, cur, capped))
  {
    hide Unguarded, Capped, Mean, Wilders, Loss, StopAfter;
  }

  lemma {:induction false} SeedAfter(block: seq<Bar>, s: Settings)
    requires Usable(s) && s.seed == "sma5" && |block| > 0
    ensures |block| > FirstValid(s.period) ==> RowAfter(block, s).tr.Some?
    ensures |block| > FirstValid(s.period) ==>
              TrueRanges(block, s) == TrueRanges(Front(block), s) + [RowAfter(block, s).tr.value]
    ensures |block| <= FirstValid(s.period) ==> TrueRanges(block, s) == TrueRanges(Front(block), s) == []
    ensures |block| == SeedBar(s) + 1 ==> RowAfter(block, s).wilders == Some(Mean(TrueRanges(block, s), s.period))
  {
    hide TrueRange, Mean, Loss, StopAfter;
  }

  /** The two reference prices and the capped span, with a branch for each kind of gap. */
  function ModifiedTrueRange(current: Bar, previous: Bar, averageHighLow: real): (r: real)
    ensures r == Unguarded(previous, current, Capped(Span(current), averageHighLow))
  {
    var highLow := current.high - current.low;
    var cappedHighLow := Min(highLow, 1.5 * averageHighLow);
    var highReference :=
      if current.low <= previous.high then current.high - previous.close
      else current.high - previous.close - 0.5 * (current.low - previous.high);
    var lowReference :=
      if current.high >= previous.low then previous.close - current.low
      else previous.close - current.low - 0.5 * (previous.low - current.high);
    Max(Max(cappedHighLow, highReference), lowReference)
  }

  /** What the loop carries from bar to bar. */
  datatype Carry = Carry(highLows: seq<real>, trSeed: seq<real>, previous: Option<Bar>,
                         wilders: Option<real>, state: Option<Side>, trail: real)

  const EMPTY_CARRY := Carry([], [], None, None, None, 0.0)

  /** The carried values are those of the block consumed so far. */
  ghost predicate Carried(c: Carry, block: seq<Bar>, s: Settings)
    requires Usable(s)
  {
    && c.highLows == LastSpans(block, s.period)
    && (c.wilders.None? ==> c.trSeed == TrueRanges(block, s))
    && (if block == [] then c.previous == None && c.wilders == None && c.state == None
        else
          var row := RowAfter(block, s);
          && c.previous == Some(Last(block))
          && c.wilders == row.wilders
          && (c.state.Some? <==> row.stop.Some?)
          && (c.state.Some? ==> c.state.value == row.stop.value.side && c.trail == row.stop.value.level))
  }

  method Consume(c: Carry, bar: Bar, s: Settings, ghost block: seq<Bar>)
    returns (c': Carry, gapMs: int, modifiedTr: Option<real>, loss: Option<real>, flip: Option<Flip>)
    requires Usable(s) && s.seed == "sma5" && Carried(c, block, s)
    ensures Carried(c', block + [bar], s)
    ensures gapMs == if block == [] then 0 else bar.ts - Last(block).ts
    ensures var row := RowAfter(block + [bar], s);
      modifiedTr == row.tr && loss == row.loss && (row.stop.Some? ==> flip == row.stop.value.flip)
      && (row.stop.None? ==> flip == None)
  {
    hide RowAfter, TrueRanges, Advance, Placed, Mean, Smooth, Capped, Unguarded, GuardedRange, LastSpans, LossOf;
    ghost var h := block + [bar];
    ghost var row := RowAfter(h, s);
    assert Front(h) == block;
    HistoryRecurrence(h, s);
    if block != [] { HistoryRecurrence(block, s); }
    SeedAfter(h, s);

    var period := s.period;
    var highLow := bar.high - bar.low;
    var highLows := (if |c.highLows| == period then c.highLows[1..] else c.highLows) + [highLow];
    PushSpan(block, bar, period);
    gapMs := if c.previous.Some? then bar.ts - c.previous.value.ts else 0;
    modifiedTr := None;
    if |highLows| == period && c.previous.Some? {
      RangeAfter(h, s);
      modifiedTr := Some(GuardedRange(bar, c.previous.value, Mean(highLows, period), gapMs, s.guard));
    }
    var trSeed, wilders := UpdateAverage(c.trSeed, c.wilders, modifiedTr, period);
    assert wilders == row.wilders;
    loss := if wilders.Some? then Some(LossOf(s.factor, wilders.value)) else None;
    var state, trail := c.state, c.trail;
    flip := None;
    if loss.Some? {
      state, trail, flip := MoveStop(c.state, c.trail, bar.close, loss.value);
      if c.state.Some? { AdvanceIgnoresAge(RowAfter(block, s).stop.value, bar.close, loss.value); }
    }
    c' := Carry(highLows, trSeed, Some(bar), wilders, state, trail);
  }

  /** A gap above the bound leaves only the capped span. */
  function GuardedRange(bar: Bar, previous: Bar, averageHighLow: real, gapMs: int, guard: bool): (r: real)
    ensures r == var capped := Capped(Span(bar), averageHighLow);
      if guard && gapMs > GAP_BOUND_MS then capped else Unguarded(previous, bar, capped)
  {
    if guard && gapMs > GAP_BOUND_MS then Min(bar.high - bar.low, 1.5 * averageHighLow)
    else ModifiedTrueRange(bar, previous, averageHighLow)
  }

  /** The seed buffer fills first; its mean starts the recursion. */
  method UpdateAverage(trSeed: seq<real>, wilders: Option<real>, tr: Option<real>, period: nat)
    returns (trSeed': seq<real>, wilders': Option<real>)
    requires period >= 1
    ensures wilders.None? && tr.Some? ==> trSeed' == trSeed + [tr.value]
    ensures wilders.None? && tr.Some? ==> wilders' == if |trSeed'| == period then Some(Mean(trSeed', period)) else None
    ensures wilders.Some? && tr.Some? ==> wilders' == Some(Smooth(wilders.value, tr.value, period))
    ensures tr.None? ==> trSeed' == trSeed && wilders' == wilders
  {
    trSeed', wilders' := trSeed, wilders;
    if tr.Some? {
      if wilders.None? {
        trSeed' := trSeed + [tr.value];
        if |trSeed'| == period { wilders' := Some(Sum(trSeed') / period as real); }
      } else {
        wilders' := Some(wilders.value + (tr.value - wilders.value) / period as real);
      }
    }
  }

  /** The flip machine of the streaming engine. */
  method MoveStop(state: Option<Side>, trail: real, close: real, loss: real)
    returns (state': Option<Side>, trail': real, flip: Option<Flip>)
    ensures state.None? ==> state' == Some(Long) && trail' == Placed(Long, close, loss) && flip == None
    ensures state.Some? ==> var stop := Advance(Stop(state.value, trail, None, 0), close, loss);
      state' == Some(stop.side) && trail' == stop.level && flip == stop.flip
  {
    state', trail', flip := state, trail, None;
    if state.None? {
      state', trail' := Some(Long), close - loss;
    } else if state.value.Long? {
      if close > trail {
        trail' := Max(trail, close - loss);
      } else {
        state', trail', flip := Some(Short), close + loss, Some(Sell);
      }
    } else if close < trail {
      trail' := Min(trail, close + loss);
    } else {
      state', trail', flip := Some(Long), close - loss, Some(Buy);
    }
  }

  lemma {:induction false} AdvanceIgnoresAge(stop: Stop, close: real, loss: real)
    ensures var a, b := Advance(stop, close, loss), Advance(Stop(stop.side, stop.level, None, 0), close, loss);
      a.side == b.side && a.level == b.level && a.flip == b.flip
  {
  }

  method CalculateModifiedAtr(
      bars: seq<Bar>, anchorOf: int -> int, sliced: bool, guard: bool, period: nat, factor: real)
    returns (stages: seq<Stage>)
    requires period >= 1
    ensures IsStream(stages, bars, anchorOf, sliced, Settings(period, factor, "sma5", guard))
  {
    hide RowAfter, Carried, Shows, InContext, BlockStart, BlockRow, Correct;
    var s := Settings(period, factor, "sma5", guard);
    ghost var b := 0;
    stages := [];
    var c := EMPTY_CARRY;
    EmptyCarried(s);
    var activeAnchor := 0;
    for i := 0 to |bars|
      invariant |stages| == i
      invariant forall k :: 0 <= k < i ==> Correct(stages[k], bars, anchorOf, sliced, s, k)
      invariant activeAnchor == if i == 0 then 0 else anchorOf(bars[i - 1].ts)
      invariant b <= i && b == if i == 0 then 0 else BlockStart(bars, anchorOf, sliced, i - 1)
      invariant Carried(c, bars[b..i], s)
    {
      var bar := bars[i];
      var anchor := anchorOf(bar.ts);
      var boundaryChanged := sliced && anchor != activeAnchor;
      var reset := activeAnchor != 0 && boundaryChanged;
      if boundaryChanged {
        c := EMPTY_CARRY;
        b := i;
        EmptyCarried(s);
      }
      activeAnchor := anchor;
      ghost var block := bars[b..i];
      SliceNext(bars, b, i);
      StartOfNext(bars, anchorOf, sliced, i);
      var gapMs, modifiedTr, loss, flip;
      c, gapMs, modifiedTr, loss, flip := Consume(c, bar, s, block);
      var stage := Stage(bar, anchor, reset, gapMs, bar.high - bar.low, modifiedTr, c.wilders, loss,
                         if c.state.Some? then Some(c.trail) else None, c.state, flip);
      CarriedShows(c, block + [bar], s, stage);
      InPlace(stage, bars, anchorOf, sliced, s, i);
      stages := stages + [stage];
    }
  }

  lemma {:induction false} EmptyCarried(s: Settings)
    requires Usable(s)
    ensures Carried(EMPTY_CARRY, [], s)
  {
  }

  lemma {:induction false} CarriedShows(c: Carry, h: seq<Bar>, s: Settings, stage: Stage)
    requires Usable(s) && |h| > 0 && Carried(c, h, s)
    requires stage.bar == Last(h) && stage.modifiedTr == RowAfter(h, s).tr && stage.loss == RowAfter(h, s).loss
    requires stage.wilders == c.wilders && stage.state == c.state
    requires stage.trail == if c.state.Some? then Some(c.trail) else None
    requires stage.flip == if RowAfter(h, s).stop.Some? then RowAfter(h, s).stop.value.flip else None
    ensures Shows(stage, RowAfter(h, s))
  {
    hide TrueRange, Wilders, Loss, StopAfter;
  }

  lemma {:induction false} InPlace(
      stage: Stage, bars: seq<Bar>, anchorOf: int -> int, sliced: bool, s: Settings, i: nat)
    requires Usable(s) && i < |bars|
    requires Shows(stage, RowAfter(bars[BlockStart(bars, anchorOf, sliced, i)..i + 1], s))
    requires stage.anchor == anchorOf(bars[i].ts) && stage.highLow == bars[i].high - bars[i].low
    requires stage.gapMs == if Boundary(bars, anchorOf, sliced, i) then 0 else bars[i].ts - bars[i - 1].ts
    requires stage.reset <==> i > 0 && Boundary(bars, anchorOf, sliced, i) && anchorOf(bars[i - 1].ts) != 0
    ensures Correct(stage, bars, anchorOf, sliced, s, i)
  {
    hide RowAfter, Shows;
  }

  lemma {:induction false} StartOfNext(bars: seq<Bar>, anchorOf: int -> int, sliced: bool, i: nat)
    requires i < |bars|
    ensures BlockStart(bars, anchorOf, sliced, i)
         == if Boundary(bars, anchorOf, sliced, i) then i else BlockStart(bars, anchorOf, sliced, i - 1)
  {
  }
}
