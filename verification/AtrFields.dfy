/** The rows of the trailing stop in terms of the bars' own fields, without the definitions of AtrTrail: what
    AtrTrail defines is what both engines are meant to compute. */
module AtrFields {
  import opened Arithmetic
  import opened Wrappers
  import opened AtrTrail
  import opened AtrStream

  // ---------------------------------------------------------------- the true range

  /** The spans of the bars, added up. */
  function HighLowTotal(bars: seq<Bar>): real {
    if bars == [] then 0.0
    else HighLowTotal(bars[..|bars| - 1]) + (bars[|bars| - 1].high - bars[|bars| - 1].low)
  }

  /** The range is the lesser of the bar's span and 1.5 average spans, or a greater distance to the previous
      close, off which half of an opening gap on that side is taken; a guarded gap leaves only the first. */
  predicate RangeOf(prev: Bar, cur: Bar, guard: bool, average: real, range: real) {
    var span := cur.high - cur.low;
    var up := if cur.low <= prev.high then cur.high - prev.close
              else cur.high - prev.close - (cur.low - prev.high) / 2.0;
    var down := if cur.high >= prev.low then prev.close - cur.low
                else prev.close - cur.low - (prev.low - cur.high) / 2.0;
    var capped := range <= span && range <= 1.5 * average && (range == span || range == 1.5 * average);
    if guard && cur.ts - prev.ts > 90_000 then capped
    else
      && range >= up && range >= down && (range >= span || range >= 1.5 * average)
      && (range == up || range == down || capped)
  }

  lemma {:induction false} SpansTotal(bars: seq<Bar>)
    ensures Sum(Spans(bars)) == HighLowTotal(bars)
  {
    if bars != [] {
      var front := bars[..|bars| - 1];
      SpansTotal(front);
      assert Spans(bars)[..|bars| - 1] == Spans(front);
    }
  }

  lemma {:induction false} CappedInFields(span: real, average: real)
    ensures var c := Capped(span, average);
      c <= span && c <= 1.5 * average && (c == span || c == 1.5 * average)
  {
  }

  lemma {:induction false} UnguardedInFields(prev: Bar, cur: Bar, average: real)
    ensures RangeOf(prev, cur, false, average, Unguarded(prev, cur, Capped(Span(cur), average)))
  {
    hide Capped;
    CappedInFields(Span(cur), average);
  }

  lemma {:induction false} TrueRangeInFields(h: seq<Bar>, s: Settings, average: real)
    requires Usable(s) && |h| > FirstValid(s.period)
    requires average * s.period as real == HighLowTotal(h[|h| - s.period..])
    ensures RangeOf(h[|h| - 2], h[|h| - 1], s.guard, average, TrueRange(h, s))
  {
    hide Unguarded, Capped, Mean, RangeOf, Spans, HighLowTotal;
    var prev, cur := h[|h| - 2], h[|h| - 1];
    MeanIs(h[|h| - s.period..], s.period, average);
    if s.guard && cur.ts - prev.ts > 90_000 {
      GuardedInFields(prev, cur, average);
    } else {
      UnguardedInFields(prev, cur, average);
      UnguardedBelowBound(prev, cur, s.guard, average, Unguarded(prev, cur, Capped(Span(cur), average)));
    }
  }

  /** A row has a true range from the second bar and the first full window on, and it is the range of its bar. */
  lemma {:induction false} RangeInFields(bars: seq<Bar>, s: Settings, i: nat, average: real)
    requires Usable(s) && i < |bars|
    requires i + 1 >= s.period ==> average * s.period as real == HighLowTotal(bars[i + 1 - s.period..i + 1])
    ensures var row := Rows(bars, s)[i];
      && row.bar == bars[i] && (row.tr.Some? <==> i >= 1 && i + 1 >= s.period)
      && (row.tr.Some? ==> RangeOf(bars[i - 1], bars[i], s.guard, average, row.tr.value))
  {
    hide Rows, TrueRange, Wilders, Loss, StopAfter, RangeOf, HighLowTotal;
    var h := Upto(bars, i);
    RowIs(bars, s, i);
    if i >= 1 && i + 1 >= s.period {
      assert h[|h| - s.period..] == bars[i + 1 - s.period..i + 1];
      TrueRangeInFields(h, s, average);
    }
  }

  lemma {:induction false} MeanIs(bars: seq<Bar>, period: nat, average: real)
    requires period >= 1 && average * period as real == HighLowTotal(bars)
    ensures Mean(Spans(bars), period) == average
  {
    hide Ratio, Spans, Sum, HighLowTotal;
    SpansTotal(bars);
    assert Times(average, period as real) == average * period as real;
    RatioUnique(Sum(Spans(bars)), period as real, average);
  }

  lemma {:induction false} GuardedInFields(prev: Bar, cur: Bar, average: real)
    ensures cur.ts - prev.ts > 90_000 ==> RangeOf(prev, cur, true, average, Capped(Span(cur), average))
  {
    CappedInFields(Span(cur), average);
  }

  lemma {:induction false} UnguardedBelowBound(prev: Bar, cur: Bar, guard: bool, average: real, range: real)
    requires RangeOf(prev, cur, false, average, range) && (!guard || cur.ts - prev.ts <= 90_000)
    ensures RangeOf(prev, cur, guard, average, range)
  {
  }

  // ---------------------------------------------------------------- the average and the loss

  /** The true ranges of the rows from `first` up to `end`, added up. */
  function RangeTotal(rows: seq<Row>, first: nat, end: nat): real
    requires first <= end <= |rows|
  {
    if first == end then 0.0
    else RangeTotal(rows, first, end - 1) + if rows[end - 1].tr.Some? then rows[end - 1].tr.value else 0.0
  }

  /** The first bar with a true range, and the bar whose average opens the trail. */
  function FirstRange(period: nat): nat { if period <= 1 then 1 else period - 1 }

  function Opening(s: Settings): nat
    requires Usable(s)
  {
    if s.seed == "sma5" then FirstRange(s.period) + s.period - 1 else FirstRange(s.period)
  }

  /** The average opens as the mean of the first `period` ranges, or as the first one, and then moves one
      `period`-th of the way to each range; the loss is `factor` times the average. */
  lemma {:induction false} AverageInFields(bars: seq<Bar>, s: Settings, i: nat)
    requires Usable(s) && i < |bars|
    ensures var rows := Rows(bars, s);
      var row := rows[i];
      && (row.wilders.Some? <==> i >= Opening(s)) && (row.loss.Some? <==> i >= Opening(s))
      && (i == Opening(s) && s.seed == "sma5" ==>
           row.wilders.value * s.period as real == RangeTotal(rows, FirstRange(s.period), i + 1))
      && (i == Opening(s) && s.seed != "sma5" ==> row.tr.Some? && row.wilders.value == row.tr.value)
      && (i > Opening(s) ==>
           && row.tr.Some? && rows[i - 1].wilders.Some?
           && (row.wilders.value - rows[i - 1].wilders.value) * s.period as real
              == row.tr.value - rows[i - 1].wilders.value)
      && (i >= Opening(s) ==> row.loss.value == s.factor * row.wilders.value)
  {
    hide Rows, Ratio, Advance, TrueRanges, Mean, RangeTotal;
    RowRecurrence(bars, s, i);
    if i == Opening(s) {
      SeedRecurrence(bars, s);
      SeedTotal(bars, s, i);
    } else if i > Opening(s) {
      RowRecurrence(bars, s, i - 1);
      StepIs(Rows(bars, s)[i - 1].wilders.value, Rows(bars, s)[i].tr.value, s.period);
    }
  }

  lemma {:induction false} StepIs(w: real, t: real, period: nat)
    requires period >= 1
    ensures (Smooth(w, t, period) - w) * period as real == t - w
  {
    hide Ratio;
    RatioTimes(t - w, period as real);
    assert Times(Ratio(t - w, period as real), period as real) == Ratio(t - w, period as real) * period as real;
  }

  lemma {:induction false} SeedTotal(bars: seq<Bar>, s: Settings, i: nat)
    requires Usable(s) && i == SeedBar(s) < |bars|
    ensures Mean(TrueRanges(Upto(bars, i), s), s.period) * s.period as real == Sum(TrueRanges(Upto(bars, i), s))
    ensures s.seed == "sma5" ==>
      Sum(TrueRanges(Upto(bars, i), s)) == RangeTotal(Rows(bars, s), FirstRange(s.period), i + 1)
  {
    hide Rows, TrueRanges, Ratio, RangeTotal;
    SeedRecurrence(bars, s);
    var ranges := TrueRanges(Upto(bars, i), s);
    MeanTimes(ranges, s.period);
    hide Sum, Mean;
    assert ranges[..|ranges|] == ranges;
    RangesAddUp(Rows(bars, s), FirstRange(s.period), ranges, |ranges|);
  }

  lemma {:induction false} MeanTimes(xs: seq<real>, period: nat)
    requires period >= 1
    ensures Mean(xs, period) * period as real == Sum(xs)
  {
    hide Ratio, Sum;
    RatioTimes(Sum(xs), period as real);
    assert Times(Mean(xs, period), period as real) == Mean(xs, period) * period as real;
  }

  lemma {:induction false} RangesAddUp(rows: seq<Row>, first: nat, ranges: seq<real>, n: nat)
    requires n <= |ranges| && first + |ranges| <= |rows|
    requires forall k :: 0 <= k < |ranges| ==> rows[first + k].tr == Some(ranges[k])
    ensures Sum(ranges[..n]) == RangeTotal(rows, first, first + n)
  {
    if n > 0 {
      RangesAddUp(rows, first, ranges, n - 1);
      assert ranges[..n][..n - 1] == ranges[..n - 1];
      assert rows[first + (n - 1)].tr == Some(ranges[n - 1]);
    }
  }

  // ---------------------------------------------------------------- the stop

  /** One bar of the flip machine. */
  predicate StopStep(prev: Stop, close: real, loss: real, stop: Stop) {
    match prev.side
    case Long =>
      if close > prev.level then
        && stop.side == Long && stop.flip == None && stop.age == prev.age + 1
        && stop.level == if prev.level >= close - loss then prev.level else close - loss
      else stop == Stop(Short, close + loss, Some(Sell), 0)
    case Short =>
      if close < prev.level then
        && stop.side == Short && stop.flip == None && stop.age == prev.age + 1
        && stop.level == if prev.level <= close + loss then prev.level else close + loss
      else stop == Stop(Long, close - loss, Some(Buy), 0)
  }

  /** The first stop is long, one loss under the close; each later one follows from the close and the loss. */
  lemma {:induction false} StopInFields(bars: seq<Bar>, s: Settings, i: nat)
    requires Usable(s) && i < |bars|
    ensures var rows := Rows(bars, s);
      var row := rows[i];
      && (row.stop.Some? <==> i >= Opening(s))
      && (i == Opening(s) ==>
           row.loss.Some? && row.stop.value == Stop(Long, bars[i].close - row.loss.value, None, 0))
      && (i > Opening(s) ==>
           && row.loss.Some? && rows[i - 1].stop.Some?
           && StopStep(rows[i - 1].stop.value, bars[i].close, row.loss.value, row.stop.value))
  {
    hide Rows, Smooth, LossOf;
    RowRecurrence(bars, s, i);
    if i > Opening(s) { RowRecurrence(bars, s, i - 1); }
  }

  // ---------------------------------------------------------------- the stages

  /** The stage of bar i is the row of its bar in the run that starts at b, the last bar at or before i that opens
      the series or, in a sliced pass, has another anchor than the bar before it. */
  lemma {:induction false} StageInFields(
      stages: seq<Stage>, bars: seq<Bar>, anchorOf: int -> int, sliced: bool, s: Settings, b: nat, i: nat)
    requires Usable(s) && IsStream(stages, bars, anchorOf, sliced, s) && b <= i < |bars|
    requires b == 0 || (sliced && anchorOf(bars[b].ts) != anchorOf(bars[b - 1].ts))
    requires sliced ==> forall k :: b < k <= i ==> anchorOf(bars[k].ts) == anchorOf(bars[k - 1].ts)
    ensures var stage, row := stages[i], Rows(bars[b..i + 1], s)[i - b];
      && stage.bar == bars[i] && stage.anchor == anchorOf(bars[i].ts) && stage.highLow == bars[i].high - bars[i].low
      && stage.gapMs == (if i == b then 0 else bars[i].ts - bars[i - 1].ts)
      && (stage.reset <==> i == b > 0 && anchorOf(bars[i - 1].ts) != 0)
      && stage.modifiedTr == row.tr && stage.wilders == row.wilders && stage.loss == row.loss
      && (if row.stop.None? then stage.trail == None && stage.state == None && stage.flip == None
          else
            && stage.trail == Some(row.stop.value.level) && stage.state == Some(row.stop.value.side)
            && stage.flip == row.stop.value.flip)
  {
    hide RowAfter, Rows, BlockStart;
    assert Correct(stages[i], bars, anchorOf, sliced, s, i);
    assert Boundary(bars, anchorOf, sliced, b);
    assert forall k :: b < k <= i ==> !Boundary(bars, anchorOf, sliced, k);
    assert BlockStart(bars, anchorOf, sliced, i) == b;
    RowIs(bars[b..i + 1], s, i - b);
    assert Upto(bars[b..i + 1], i - b) == bars[b..i + 1];
    BarOfRow(bars[b..i + 1], s);
  }

  lemma {:induction false} BarOfRow(h: seq<Bar>, s: Settings)
    requires Usable(s) && |h| > 0
    ensures RowAfter(h, s).bar == h[|h| - 1]
  {
  }
}
