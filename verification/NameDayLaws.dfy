/** What holds of every settled name-day: no decision looks ahead, a fill ends the day, no break is missed. */
module NameDayLaws {
  import opened Wrappers
  import opened Halts
  import opened NameDay

  // ---------------------------------------------------------------- the shape of a day

  /** What the next row says about the trades since the row before it. */
  ghost predicate Follows(d: Day, level: real, prev: Option<Row>, row: Row) {
    if IsFill(row) then
      && prev.Some? && prev.value.action == Arm
      && FillsAt(d, level, prev.value, row)
    else
      && (row.action == Arm || row.action == Pull)
      && (prev.Some? && prev.value.action == Arm ==> Quiet(d, level, prev.value.evaluatedAt, row.evaluatedAt))
  }

  /** No tradable print above the level in [start, end). */
  ghost predicate Quiet(d: Day, level: real, start: int, end: int) {
    forall t :: t in d.trades && start <= t.at < end ==> !Breaks(t, level, d.halts)
  }

  /** The fill is a break while armed, at the level itself when a quote was known and unpriced otherwise. */
  ghost predicate FillsAt(d: Day, level: real, armed: Row, row: Row) {
    && row.fillAt == Some(row.evaluatedAt) && armed.evaluatedAt <= row.evaluatedAt < CUTOFF
    && (exists t :: t in d.trades && t.at == row.evaluatedAt && Breaks(t, level, d.halts))
    && row.fillPrice == (if row.action == Fill then Some(level) else None)
    && (row.action == Fill <==> QuoteKnownBy(d.quotes, MinuteOf(row.evaluatedAt), row.evaluatedAt))
    && (d.TimeOrdered() ==> Quiet(d, level, armed.evaluatedAt, row.evaluatedAt))
  }

  ghost predicate Chain(d: Day, level: real, prev: Option<Row>, rows: seq<Row>)
    decreases |rows|
  {
    rows != [] ==>
      && Follows(d, level, prev, rows[0])
      && (IsFill(rows[0]) ==> |rows| == 1)
      && Chain(d, level, Some(rows[0]), rows[1..])
  }

  lemma {:induction false} FirstBreakIsEarliest(
      trades: seq<Trade>, level: real, halts: seq<Window>, start: int, end: int)
    requires forall i, j :: 0 <= i < j < |trades| ==> trades[i].at <= trades[j].at
    requires FirstBreak(trades, level, halts, start, end).Some?
    ensures var fill := FirstBreak(trades, level, halts, start, end).value;
      forall t :: t in trades && start <= t.at < fill.at ==> !Breaks(t, level, halts)
  {
    hide Breaks;
    if start <= trades[0].at < end && Breaks(trades[0], level, halts) {
    } else {
      FirstBreakIsEarliest(trades[1..], level, halts, start, end);
    }
  }

  lemma {:induction false} FillRowFits(d: Day, level: real, armed: Row, start: int, end: int)
    requires armed.action == Arm && start == armed.evaluatedAt && end <= CUTOFF
    requires FirstBreak(d.trades, level, d.halts, start, end).Some?
    ensures var row := FillRow(d, level, armed, FirstBreak(d.trades, level, d.halts, start, end).value);
      IsFill(row) && Follows(d, level, Some(armed), row)
  {
    hide Breaks, QuoteKnownBy, MinuteOf;
    var fill := FirstBreak(d.trades, level, d.halts, start, end).value;
    if d.TimeOrdered() { FirstBreakIsEarliest(d.trades, level, d.halts, start, end); }
  }

  lemma {:induction false} RowsChain(d: Day, level: real, i: nat, armed: Option<Row>, prev: Option<Row>)
    requires d.Valid() && i <= |d.bars|
    requires armed.Some? ==> prev == armed && armed.value.action == Arm
    requires armed.None? ==> prev.None? || prev.value.action != Arm
    ensures Chain(d, level, prev, RowsFrom(d, level, i, armed))
    decreases |d.bars| - i
  {
    hide Breaks, QuoteKnownBy, MinuteOf, Momentum, FillRow;
    if i < |d.bars| {
      var bar := d.bars[i];
      if !InSession(bar) {
        RowsChain(d, level, i + 1, armed, prev);
      } else {
        var fill :=
          if armed.Some? then FirstBreak(d.trades, level, d.halts, armed.value.evaluatedAt, IntervalEnd(bar)) else None;
        if fill.Some? {
          FillRowFits(d, level, armed.value, armed.value.evaluatedAt, IntervalEnd(bar));
        } else if DecisionAt(bar) < CUTOFF {
          var row := Momentum(bar, d.indicators[i], level);
          MomentumIsNoFill(bar, d.indicators[i], level);
          RowsChain(d, level, i + 1, if row.action == Arm then Some(row) else None, Some(row));
        }
      }
    }
  }

  lemma {:induction false} ChainAt(d: Day, level: real, prev: Option<Row>, rows: seq<Row>, k: nat)
    requires Chain(d, level, prev, rows) && k < |rows|
    ensures Follows(d, level, if k == 0 then prev else Some(rows[k - 1]), rows[k])
    ensures IsFill(rows[k]) ==> k == |rows| - 1
    decreases k
  {
    hide Follows;
    if k > 0 { ChainAt(d, level, Some(rows[0]), rows[1..], k - 1); }
  }

  /** A fill row is the last one, comes right after an ARM row, and is the first break since it. */
  lemma {:induction false} FillEndsTheDay(d: Day, k: nat)
    requires d.Valid() && k < |LiveRows(d)| && IsFill(LiveRows(d)[k])
    ensures k == |LiveRows(d)| - 1 && k > 0 && LiveRows(d)[k - 1].action == Arm
    ensures d.openingHigh.Some? && FillsAt(d, d.openingHigh.value, LiveRows(d)[k - 1], LiveRows(d)[k])
  {
    hide FillsAt, RowsFrom, Verdicts, StatusOf;
    RowsChain(d, d.openingHigh.value, 0, None, None);
    ChainAt(d, d.openingHigh.value, None, LiveRows(d), k);
  }

  /** Between an ARM row and a later row that is no fill, nothing broke the level. */
  lemma {:induction false} NoBreakIsMissed(d: Day, k: nat)
    requires d.Valid() && k + 1 < |LiveRows(d)|
    requires LiveRows(d)[k].action == Arm && !IsFill(LiveRows(d)[k + 1])
    ensures d.openingHigh.Some?
    ensures Quiet(d, d.openingHigh.value, LiveRows(d)[k].evaluatedAt, LiveRows(d)[k + 1].evaluatedAt)
  {
    hide Quiet, FillsAt, RowsFrom, Verdicts, StatusOf;
    RowsChain(d, d.openingHigh.value, 0, None, None);
    ChainAt(d, d.openingHigh.value, None, LiveRows(d), k + 1);
  }

  /** A day that is still armed at its last row saw no break up to 10:00, once the 09:59 bar is there. */
  lemma {:induction false} ArmedToTheCutoff(d: Day, last: nat)
    requires d.Valid() && LiveRows(d) != [] && LiveRows(d)[|LiveRows(d)| - 1].action == Arm
    requires last < |d.bars| && InSession(d.bars[last]) && DecisionAt(d.bars[last]) >= CUTOFF
    ensures d.openingHigh.Some?
    ensures Quiet(d, d.openingHigh.value, LiveRows(d)[|LiveRows(d)| - 1].evaluatedAt, CUTOFF)
  {
    hide Quiet, RowsFrom, Verdicts, StatusOf;
    RowsReachCutoff(d, d.openingHigh.value, 0, None, last);
  }

  lemma {:induction false} RowsReachCutoff(d: Day, level: real, i: nat, armed: Option<Row>, last: nat)
    requires d.Valid() && i <= last < |d.bars| && InSession(d.bars[last]) && DecisionAt(d.bars[last]) >= CUTOFF
    requires armed.Some? ==> armed.value.action == Arm
    ensures var rows := RowsFrom(d, level, i, armed);
      && (rows == [] && armed.Some? ==> Quiet(d, level, armed.value.evaluatedAt, CUTOFF))
      && (rows != [] && rows[|rows| - 1].action == Arm ==> Quiet(d, level, rows[|rows| - 1].evaluatedAt, CUTOFF))
    decreases |d.bars| - i
  {
    hide Breaks, QuoteKnownBy, MinuteOf, Momentum;
    var bar := d.bars[i];
    if !InSession(bar) {
      RowsReachCutoff(d, level, i + 1, armed, last);
    } else {
      var fill :=
        if armed.Some? then FirstBreak(d.trades, level, d.halts, armed.value.evaluatedAt, IntervalEnd(bar)) else None;
      if fill.None? && DecisionAt(bar) < CUTOFF {
        var row := Momentum(bar, d.indicators[i], level);
        MomentumIsNoFill(bar, d.indicators[i], level);
        RowsReachCutoff(d, level, i + 1, if row.action == Arm then Some(row) else None, last);
      }
    }
  }

  /** Without an eligible gate there are no live rows and nothing to sell. */
  lemma {:induction false} IneligibleDayIsEmpty(d: Day, rule: BodyRule)
    requires d.Valid() && SettledDay(d, rule).status != Eligible
    ensures SettledDay(d, rule).live == [] && SettledDay(d, rule).postFill == None
  {
    hide Verdicts, StatusOf;
  }
}
