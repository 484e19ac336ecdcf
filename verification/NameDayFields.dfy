/** The settled name-day in terms of the bars', indicators', trades' and quotes' own fields: when the gate passes,
    when a row arms, what a fill is and what the body measures. Times are microseconds since Eastern midnight. */
module NameDayFields {
  import opened Wrappers
  import opened Halts
  import opened NameDay
  import opened NameDayLaws

  const ONE_MINUTE := 60_000_000
  const AT_0925 := 33_900_000_000
  const AT_0930 := 34_200_000_000
  const AT_1000 := 36_000_000_000

  // ---------------------------------------------------------------- the gate

  /** Bar i is the first one of 09:30. */
  ghost predicate OpensAt(d: Day, i: nat) {
    i < |d.bars| && d.bars[i].at == AT_0930 && forall k :: 0 <= k < i ==> d.bars[k].at != AT_0930
  }

  function RunUpSet(bars: seq<Bar>): set<nat> {
    set i: nat | i < |bars| && AT_0925 <= bars[i].at < AT_0930
  }

  function RedSet(bars: seq<Bar>): set<nat> {
    set i: nat | i < |bars| && AT_0925 <= bars[i].at < AT_0930 && bars[i].close < bars[i].first
  }

  lemma {:induction false} SetOfOneMore(small: set<nat>, large: set<nat>, n: nat, added: bool)
    requires n !in small
    requires forall x: nat :: x in large <==> x in small || (added && x == n)
    ensures |large| == |small| + if added then 1 else 0
  {
    var expected := if added then small + {n} else small;
    forall x: nat ensures x in large <==> x in expected {}
    assert large == expected;
  }

  lemma {:induction false} RunUpCounts(bars: seq<Bar>)
    ensures |RunUpSet(bars)| == RunUpBars(bars) && |RedSet(bars)| == RedBars(bars)
  {
    if bars == [] {
      assert RunUpSet(bars) == {} && RedSet(bars) == {};
    } else {
      var n := |bars| - 1;
      RunUpCounts(bars[..n]);
      SetOfOneMore(RunUpSet(bars[..n]), RunUpSet(bars), n, RunUpBar(bars[n]));
      SetOfOneMore(RedSet(bars[..n]), RedSet(bars), n, RunUpBar(bars[n]) && bars[n].close < bars[n].first);
    }
  }

  lemma {:induction false} OpeningIndex(d: Day)
    ensures forall i: nat :: OpensAt(d, i) <==> IndexAt(d.bars, OPEN, 0) == Some(i)
  {
  }

  /** The four verdicts: the 09:30 close above the ATR level; of exactly five bars from 09:25 on fewer than four
      closing below their open; the look-back values that the assignment asks for; a fixed opening high. */
  lemma {:induction false} GateInFields(d: Day)
    requires d.Valid()
    ensures |Verdicts(d)| == 4
    ensures forall i: nat :: OpensAt(d, i) ==>
      var bar, now := d.bars[i], d.indicators[i];
      && Verdicts(d)[0] == (if now.atrLevel.None? then Unanswerable
                            else if bar.close <= now.atrLevel.value then Fail else Pass)
      && (d.assignment == VolumeBaseline ==>
           Verdicts(d)[2] == if now.volumeAverage.None? then Unanswerable else Pass)
      && (d.assignment == AbsoluteLevels ==>
           Verdicts(d)[2] == if now.rsi.None? || now.stoch.None? then Unanswerable
                             else if now.rsi.value < 50.0 || now.stoch.value < 50.0 then Fail else Pass)
    ensures (forall i: nat :: !OpensAt(d, i)) ==> Verdicts(d)[0] == Verdicts(d)[2] == Unanswerable
    ensures Verdicts(d)[1] == if |RunUpSet(d.bars)| != 5 then Unanswerable
                              else if |RedSet(d.bars)| >= 4 then Fail else Pass
    ensures Verdicts(d)[3] == if d.openingHigh.None? then Unanswerable else Pass
  {
    hide OpensAt, RunUpSet, RedSet, RunUpBars, RedBars;
    OpeningIndex(d);
    RunUpCounts(d.bars);
    var found := IndexAt(d.bars, OPEN, 0);
    if found.Some? { assert OpensAt(d, found.value); }
  }

  /** There are live rows only on a day with four passed verdicts. */
  lemma {:induction false} LiveMeansPassed(d: Day)
    requires d.Valid() && LiveRows(d) != []
    ensures Verdicts(d) == [Pass, Pass, Pass, Pass] && d.openingHigh.Some?
  {
    hide TrailVerdict, RunUpVerdict, LookbackVerdict, RangeVerdict, RowsFrom;
    var checks := Verdicts(d);
    assert |checks| == 4;
    forall k | 0 <= k < 4 ensures checks[k] == Pass { assert checks[k] in checks; }
    assert checks == [checks[0], checks[1], checks[2], checks[3]];
  }

  // ---------------------------------------------------------------- the rows of the bars

  predicate OfSession(bar: Bar) { AT_0930 <= bar.at < AT_1000 }

  /** How many of the first n bars are of the session. */
  function Sessions(bars: seq<Bar>, n: nat): nat
    requires n <= |bars|
  {
    if n == 0 then 0 else Sessions(bars, n - 1) + if OfSession(bars[n - 1]) then 1 else 0
  }

  /** ARM needs all four: a positive histogram, a volume of at least its positive average, and RSI and stochastic
      above their prior values. */
  predicate Arms(bar: Bar, now: Indicators) {
    && now.histogram.Some? && now.histogram.value > 0.0
    && now.volumeAverage.Some? && now.volumeAverage.value > 0.0 && bar.volume as real >= now.volumeAverage.value
    && now.rsi.Some? && now.priorRsi.Some? && now.rsi.value > now.priorRsi.value
    && now.stoch.Some? && now.priorStoch.Some? && now.stoch.value > now.priorStoch.value
  }

  /** What the row of a bar says. */
  predicate RowOfBar(row: Row, bar: Bar, now: Indicators, level: real) {
    && row.barAt == bar.at && row.evaluatedAt == bar.at + ONE_MINUTE && row.openingHigh == level
    && row.action == (if Arms(bar, now) then Arm else Pull)
    && row.fillAt == None && row.fillPrice == None
    && row.macdGreen == (if now.histogram.None? then None else Some(now.histogram.value > 0.0))
    && row.rsiUp == (if now.rsi.None? || now.priorRsi.None? then None else Some(now.rsi.value > now.priorRsi.value))
    && row.stochUp ==
       (if now.stoch.None? || now.priorStoch.None? then None else Some(now.stoch.value > now.priorStoch.value))
    && (row.volumeRatio.Some? <==> now.volumeAverage.Some? && now.volumeAverage.value > 0.0)
    && (row.volumeRatio.Some? ==> row.volumeRatio.value * now.volumeAverage.value == bar.volume as real)
  }

  lemma {:induction false} AtLeastOne(x: real, p: real)
    requires p > 0.0
    ensures x / p >= 1.0 <==> x >= p
    ensures x / p * p == x
  {
    var r := x / p;
    assert r * p == x;
    assert (r - 1.0) * p == x - p;
    if r >= 1.0 { assert (r - 1.0) * p >= 0.0; } else { assert (1.0 - r) * p > 0.0; }
  }

  lemma {:induction false} MomentumInFields(bar: Bar, now: Indicators, level: real)
    ensures RowOfBar(Momentum(bar, now, level), bar, now, level)
  {
    if now.volumeAverage.Some? && now.volumeAverage.value > 0.0 {
      AtLeastOne(bar.volume as real, now.volumeAverage.value);
    }
  }

  /** Row k of a day that is no fill is the row of the session bar with k session bars before it. */
  lemma {:induction false} RowInFields(d: Day, k: nat) returns (j: nat)
    requires d.Valid() && k < |LiveRows(d)|
    requires LiveRows(d)[k].action != Fill && LiveRows(d)[k].action != FillUnanswerable
    ensures d.openingHigh.Some? && j < |d.bars|
    ensures OfSession(d.bars[j]) && d.bars[j].at + ONE_MINUTE < AT_1000 && Sessions(d.bars, j) == k
    ensures RowOfBar(LiveRows(d)[k], d.bars[j], d.indicators[j], d.openingHigh.value)
  {
    hide RowsFrom, Verdicts, StatusOf, RowOfBar;
    j := RowFromBar(d, d.openingHigh.value, 0, None, k);
  }

  lemma {:induction false} RowFromBar(d: Day, level: real, i: nat, armed: Option<Row>, k: nat) returns (j: nat)
    requires d.Valid() && i <= |d.bars| && k < |RowsFrom(d, level, i, armed)|
    requires !IsFill(RowsFrom(d, level, i, armed)[k])
    ensures i <= j < |d.bars| && OfSession(d.bars[j]) && d.bars[j].at + ONE_MINUTE < AT_1000
    ensures Sessions(d.bars, j) == Sessions(d.bars, i) + k
    ensures RowOfBar(RowsFrom(d, level, i, armed)[k], d.bars[j], d.indicators[j], level)
    decreases |d.bars| - i
  {
    hide Momentum, FirstBreak, QuoteKnownBy, MinuteOf, RowOfBar;
    var bar := d.bars[i];
    if !InSession(bar) {
      j := RowFromBar(d, level, i + 1, armed, k);
    } else {
      var row := Momentum(bar, d.indicators[i], level);
      MomentumInFields(bar, d.indicators[i], level);
      if k == 0 {
        j := i;
      } else {
        j := RowFromBar(d, level, i + 1, if row.action == Arm then Some(row) else None, k - 1);
      }
    }
  }

  /** On an eligible day every session bar that ends before 10:00 has its row, unless a fill ended the day. */
  lemma {:induction false} EveryBarHasItsRow(d: Day, j: nat)
    requires d.Valid() && Verdicts(d) == [Pass, Pass, Pass, Pass] && d.openingHigh.Some?
    requires j < |d.bars| && OfSession(d.bars[j])
    requires forall m :: 0 <= m <= j && OfSession(d.bars[m]) ==> d.bars[m].at + ONE_MINUTE < AT_1000
    ensures var rows := LiveRows(d);
      Sessions(d.bars, j) < |rows| || (rows != [] && IsFill(rows[|rows| - 1]))
  {
    hide RowsFrom, Verdicts;
    BarHasItsRow(d, d.openingHigh.value, 0, None, j);
  }

  lemma {:induction false} BarHasItsRow(d: Day, level: real, i: nat, armed: Option<Row>, j: nat)
    requires d.Valid() && i <= j < |d.bars| && OfSession(d.bars[j])
    requires forall m :: 0 <= m <= j && OfSession(d.bars[m]) ==> d.bars[m].at + ONE_MINUTE < AT_1000
    ensures var rows := RowsFrom(d, level, i, armed);
      Sessions(d.bars, j) < Sessions(d.bars, i) + |rows| || (rows != [] && IsFill(rows[|rows| - 1]))
    decreases j - i
  {
    hide Momentum, FirstBreak, QuoteKnownBy, MinuteOf;
    var bar := d.bars[i];
    if !InSession(bar) {
      BarHasItsRow(d, level, i + 1, armed, j);
    } else if i < j {
      var row := Momentum(bar, d.indicators[i], level);
      BarHasItsRow(d, level, i + 1, if row.action == Arm then Some(row) else None, j);
    }
  }

  // ---------------------------------------------------------------- the fill

  /** A print above the level, outside every halt. */
  ghost predicate Above(t: Trade, level: real, halts: seq<Window>) {
    t.price > level && forall w :: w in halts ==> !(w.lastPrint < t.at < w.reopen)
  }

  /** A fill is a print above the level outside halts, from the ARM row on and before 10:00, the first one in time;
      it is priced at the level exactly when some quote of its minute up to it has a positive bid and ask. */
  lemma {:induction false} FillInFields(d: Day, k: nat)
    requires d.Valid() && k < |LiveRows(d)| && IsFill(LiveRows(d)[k])
    ensures d.openingHigh.Some? && k == |LiveRows(d)| - 1 && k > 0
    ensures var row, armed, level := LiveRows(d)[k], LiveRows(d)[k - 1], d.openingHigh.value;
      var minute := row.evaluatedAt - row.evaluatedAt % ONE_MINUTE;
      && armed.action == Arm && armed.evaluatedAt <= row.evaluatedAt < AT_1000 && row.fillAt == Some(row.evaluatedAt)
      && (exists t :: t in d.trades && t.at == row.evaluatedAt && Above(t, level, d.halts))
      && (row.action == Fill <==>
           exists q :: q in d.quotes && minute <= q.at <= row.evaluatedAt && q.bid > 0.0 && q.ask > 0.0)
      && row.fillPrice == (if row.action == Fill then Some(level) else None)
      && (d.TimeOrdered() ==>
           forall t :: t in d.trades && armed.evaluatedAt <= t.at < row.evaluatedAt ==> !Above(t, level, d.halts))
  {
    hide LiveRows;
    FillEndsTheDay(d, k);
    AboveBreaks(d);
    MinuteStart(LiveRows(d)[k].evaluatedAt);
  }

  lemma {:induction false} AboveBreaks(d: Day)
    ensures forall t, level :: Above(t, level, d.halts) <==> Breaks(t, level, d.halts)
  {
  }

  lemma {:induction false} MinuteStart(at: int)
    ensures MinuteOf(at) == at - at % ONE_MINUTE
  {
  }

  // ---------------------------------------------------------------- the body

  /** The prices that the body is measured from: the bar's own, or its open with the prints seen since. */
  ghost predicate Extremes(first: real, prices: seq<real>, high: real, low: real) {
    && (high == first || high in prices) && high >= first && (forall p :: p in prices ==> p <= high)
    && (low == first || low in prices) && low <= first && (forall p :: p in prices ==> low <= p)
  }

  lemma {:induction false} HighestIs(x: real, prices: seq<real>)
    ensures var h := Highest(x, prices); (h == x || h in prices) && h >= x && forall p :: p in prices ==> p <= h
    decreases |prices|
  {
    if prices != [] {
      HighestIs(if prices[0] > x then prices[0] else x, prices[1..]);
      assert prices == [prices[0]] + prices[1..];
    }
  }

  lemma {:induction false} LowestIs(x: real, prices: seq<real>)
    ensures var l := Lowest(x, prices); (l == x || l in prices) && l <= x && forall p :: p in prices ==> l <= p
    decreases |prices|
  {
    if prices != [] {
      LowestIs(if prices[0] < x then prices[0] else x, prices[1..]);
      assert prices == [prices[0]] + prices[1..];
    }
  }

  /** `prices` are those of the trades in the interval, in order. */
  ghost predicate Printed(trades: seq<Trade>, start: int, end: int, prices: seq<real>) {
    if trades == [] then prices == []
    else
      var last := trades[|trades| - 1];
      if start <= last.at <= end then
        prices != [] && prices[|prices| - 1] == last.price
        && Printed(trades[..|trades| - 1], start, end, prices[..|prices| - 1])
      else Printed(trades[..|trades| - 1], start, end, prices)
  }

  lemma {:induction false} VisibleAppend(trades: seq<Trade>, t: Trade, start: int, end: int)
    ensures Visible(trades + [t], start, end)
      == Visible(trades, start, end) + if start <= t.at <= end then [t.price] else []
  {
    if trades == [] {
      assert trades + [t] == [t];
      assert Visible([t][1..], start, end) == [];
    } else {
      assert (trades + [t])[1..] == trades[1..] + [t];
      VisibleAppend(trades[1..], t, start, end);
    }
  }

  lemma {:induction false} VisibleIsPrinted(trades: seq<Trade>, start: int, end: int)
    ensures Printed(trades, start, end, Visible(trades, start, end))
  {
    if trades != [] {
      var front, last := trades[..|trades| - 1], trades[|trades| - 1];
      assert trades == front + [last];
      VisibleIsPrinted(front, start, end);
      VisibleAppend(front, last, start, end);
      assert Visible(front, start, end) + [] == Visible(front, start, end);
      var all := Visible(trades, start, end);
      if start <= last.at <= end { assert all[..|all| - 1] == Visible(front, start, end); }
    }
  }

  /** The body in percent: the distance from open to last over the span. */
  ghost predicate IsBody(body: Option<real>, first: real, high: real, low: real, last: real) {
    && (body.Some? <==> high > low)
    && (body.Some? ==>
         body.value * (high - low) == 100.0 * if last >= first then last - first else first - last)
  }

  lemma {:induction false} BodyIs(first: real, high: real, low: real, last: real)
    ensures var b := Body(first, high, low, last);
      IsBody(if b.None? then None else Some(b.value * 100.0), first, high, low, last)
  {
    if high - low > 0.0 {
      var span, d := high - low, Distance(last, first);
      assert d / span * span == d;
      assert d / span * 100.0 * span == 100.0 * (d / span * span);
    }
  }

  /** The measurement after a fill: at the end of its minute from the bar's four prices, or after a delay from the
      bar's open and the prints seen up to then; held exactly from the threshold on. */
  lemma {:induction false} BodyInFields(
      d: Day, fillAt: int, bar: Bar, rule: BodyRule, prices: seq<real>, high: real, low: real)
    requires
      var at := if rule.delay.None? then fillAt - fillAt % ONE_MINUTE + ONE_MINUTE else fillAt + rule.delay.value;
      Printed(d.trades, bar.at, at, prices) && Extremes(bar.first, prices, high, low)
    ensures var r := EvaluatePostFill(d, fillAt, bar, rule);
      && r.fillAt == fillAt
      && r.evaluatedAt ==
         (if rule.delay.None? then fillAt - fillAt % ONE_MINUTE + ONE_MINUTE else fillAt + rule.delay.value)
      && (rule.delay.None? ==> IsBody(r.body, bar.first, bar.high, bar.low, bar.close))
      && (rule.delay.Some? && prices == [] ==> r.body == None)
      && (rule.delay.Some? && prices != [] ==> IsBody(r.body, bar.first, high, low, prices[|prices| - 1]))
      && (r.action == Hold <==> r.body.Some? && r.body.value >= rule.threshold)
  {
    hide Body, IsBody, Visible, Highest, Lowest, Printed, FirstExecutable;
    MinuteStart(fillAt);
    var at := MeasurementAt(fillAt, rule.delay);
    VisibleIsPrinted(d.trades, bar.at, at);
    PrintedOnce(d.trades, bar.at, at, prices, Visible(d.trades, bar.at, at));
    HighestIs(bar.first, prices);
    LowestIs(bar.first, prices);
    if rule.delay.None? {
      BodyIs(bar.first, bar.high, bar.low, bar.close);
    } else if prices != [] {
      BodyIs(bar.first, high, low, prices[|prices| - 1]);
    }
  }

  lemma {:induction false} PrintedOnce(trades: seq<Trade>, start: int, end: int, xs: seq<real>, ys: seq<real>)
    requires Printed(trades, start, end, xs) && Printed(trades, start, end, ys)
    ensures xs == ys
  {
    if trades != [] {
      var front, last := trades[..|trades| - 1], trades[|trades| - 1];
      if start <= last.at <= end {
        PrintedOnce(front, start, end, xs[..|xs| - 1], ys[..|ys| - 1]);
        assert xs == xs[..|xs| - 1] + [xs[|xs| - 1]] && ys == ys[..|ys| - 1] + [ys[|ys| - 1]];
      } else {
        PrintedOnce(front, start, end, xs, ys);
      }
    }
  }

  /** A sale is decided only after a fill, with the first session bar of the fill's minute. */
  lemma {:induction false} PostFillInFields(d: Day, rule: BodyRule)
    requires d.Valid()
    ensures var rows, post := LiveRows(d), AfterRows(d, LiveRows(d), rule);
      post.Some? ==>
        && rows != [] && rows[|rows| - 1].action == Fill && rows[|rows| - 1].fillAt.Some?
        && exists i: nat :: i < |d.bars| && SessionBarOf(d, i, rows[|rows| - 1].fillAt.value)
                            && post.value == EvaluatePostFill(d, rows[|rows| - 1].fillAt.value, d.bars[i], rule)
    ensures var rows := LiveRows(d);
      rows != [] && rows[|rows| - 1].action == Fill && rows[|rows| - 1].fillAt.Some? ==>
        (AfterRows(d, rows, rule).None? <==> NoSessionBarOf(d, rows[|rows| - 1].fillAt.value))
  {
    hide LiveRows, EvaluatePostFill;
    var rows, post := LiveRows(d), AfterRows(d, LiveRows(d), rule);
    if rows != [] && rows[|rows| - 1].fillAt.Some? { FillBarIs(d, rows[|rows| - 1].fillAt.value, 0); }
  }

  /** Bar i is the first session bar of the minute. */
  ghost predicate SessionBarOf(d: Day, i: nat, at: int) {
    && i < |d.bars| && OfSession(d.bars[i]) && d.bars[i].at == at - at % ONE_MINUTE
    && forall k :: 0 <= k < i ==> !(OfSession(d.bars[k]) && d.bars[k].at == at - at % ONE_MINUTE)
  }

  ghost predicate NoSessionBarOf(d: Day, at: int) { forall i: nat :: !SessionBarOf(d, i, at) }

  lemma {:induction false} FillBarIs(d: Day, at: int, i: nat)
    requires i <= |d.bars| && forall k :: 0 <= k < i ==> !(OfSession(d.bars[k]) && d.bars[k].at == at - at % ONE_MINUTE)
    ensures FillBar(d.bars, at, i).Some? ==> SessionBarOf(d, FillBar(d.bars, at, i).value, at)
    ensures FillBar(d.bars, at, i).None? ==> forall k :: !SessionBarOf(d, k, at)
    decreases |d.bars| - i
  {
    hide MinuteOf;
    MinuteStart(at);
    if i < |d.bars| && !(InSession(d.bars[i]) && d.bars[i].at == MinuteOf(at)) { FillBarIs(d, at, i + 1); }
  }

  /** A quote to sell at: from the time on, with a bid, outside every halt. */
  ghost predicate Sellable(q: Quote, at: int, halts: seq<Window>) {
    q.at >= at && q.bid > 0.0 && forall w :: w in halts ==> q.at <= w.lastPrint || w.reopen <= q.at
  }

  ghost predicate FirstSellable(q: Quote, quotes: seq<Quote>, at: int, halts: seq<Window>) {
    exists k :: 0 <= k < |quotes| && quotes[k] == q && Sellable(q, at, halts)
                && forall j :: 0 <= j < k ==> !Sellable(quotes[j], at, halts)
  }

  lemma {:induction false} SellableMeans(halts: seq<Window>)
    ensures forall q, at :: Sellable(q, at, halts) <==> Executable(q, at, halts)
  {
  }

  /** A failed body sells at the first such quote from the measurement on, and is unanswerable without one. */
  lemma {:induction false} SaleInFields(d: Day, fillAt: int, bar: Bar, rule: BodyRule)
    ensures var r := EvaluatePostFill(d, fillAt, bar, rule);
      && (r.action == Hold || r.action == BodyUnanswerable ==> r.exit.None?)
      && (r.action == Sell ==> r.exit.Some? && FirstSellable(r.exit.value, d.quotes, r.evaluatedAt, d.halts))
      && (r.action == SellUnanswerable ==>
           r.exit.None? && forall q :: q in d.quotes ==> !Sellable(q, r.evaluatedAt, d.halts))
  {
    SellableMeans(d.halts);
    hide Executable, Sellable, MeasuredBody, FirstExecutableBid;
  }
}
