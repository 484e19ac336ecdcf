/** The settled name-day machine of scripts/orb_operator_filter_census.py: a gate at 09:31, then one ARM or
    PULL per completed minute bar until a trade breaks the fixed opening high while armed, then the body
    check that may sell. Times are microseconds since Eastern midnight. */
module NameDay {
  import opened Wrappers
  import opened Halts

  const RUN_UP := 565 * MINUTE
  const OPEN := 570 * MINUTE
  const GATE_AT := 571 * MINUTE
  const CUTOFF := 600 * MINUTE

  datatype Bar = Bar(at: int, first: real, high: real, low: real, close: real, volume: int)

  datatype Trade = Trade(at: int, price: real)

  datatype Quote = Quote(at: int, bid: real, ask: real)

  datatype Indicators = Indicators(
    atrLevel: Option<real>, histogram: Option<real>, volumeAverage: Option<real>,
    rsi: Option<real>, priorRsi: Option<real>, stoch: Option<real>, priorStoch: Option<real>)

  datatype Assignment = VolumeBaseline | AbsoluteLevels

  datatype Day = Day(
    bars: seq<Bar>, indicators: seq<Indicators>, trades: seq<Trade>, quotes: seq<Quote>, halts: seq<Window>,
    openingHigh: Option<real>, assignment: Assignment)
  {
    ghost predicate Valid() { |bars| == |indicators| }

    /** The queries that feed the machine deliver bars and trades in time order. */
    ghost predicate TimeOrdered() {
      && (forall i, j :: 0 <= i < j < |bars| ==> bars[i].at <= bars[j].at)
      && forall i, j :: 0 <= i < j < |trades| ==> trades[i].at <= trades[j].at
    }
  }

  /** A minute bar is known when its minute ends. */
  function DecisionAt(bar: Bar): int { bar.at + MINUTE }

  function MinuteOf(at: int): (minute: int)
    ensures minute <= at < minute + MINUTE && minute % MINUTE == 0
  {
    at - at % MINUTE
  }

  // ---------------------------------------------------------------- the day gate

  datatype Verdict = Pass | Fail | Unanswerable

  datatype GateStatus = Eligible | Killed | GateUnanswerable

  /** Index of the first bar labelled `at`, from `i` on. */
  function IndexAt(bars: seq<Bar>, at: int, i: nat): (r: Option<nat>)
    requires i <= |bars|
    ensures r.None? ==> forall k :: i <= k < |bars| ==> bars[k].at != at
    ensures r.Some? ==> i <= r.value < |bars| && bars[r.value].at == at
    ensures r.Some? ==> forall k :: i <= k < r.value ==> bars[k].at != at
    decreases |bars| - i
  {
    if i == |bars| then None else if bars[i].at == at then Some(i) else IndexAt(bars, at, i + 1)
  }

  predicate RunUpBar(bar: Bar) { RUN_UP <= bar.at < OPEN }

  function RunUpBars(bars: seq<Bar>): nat {
    if bars == [] then 0 else RunUpBars(bars[..|bars| - 1]) + if RunUpBar(bars[|bars| - 1]) then 1 else 0
  }

  function RedBars(bars: seq<Bar>): nat {
    if bars == [] then 0
    else
      var bar := bars[|bars| - 1];
      RedBars(bars[..|bars| - 1]) + if RunUpBar(bar) && bar.close < bar.first then 1 else 0
  }

  function AtGate(d: Day): (r: Option<(Bar, Indicators)>)
    requires d.Valid()
  {
    match IndexAt(d.bars, OPEN, 0)
    case None => None
    case Some(i) => Some((d.bars[i], d.indicators[i]))
  }

  /** R1: the 09:30 bar closes above the ATR trail. */
  function TrailVerdict(d: Day): Verdict
    requires d.Valid()
  {
    match AtGate(d)
    case None => Unanswerable
    case Some((bar, now)) =>
      if now.atrLevel.None? then Unanswerable else if bar.close <= now.atrLevel.value then Fail else Pass
  }

  /** R5: exactly five bars in the run-up, fewer than four of them red. */
  function RunUpVerdict(d: Day): Verdict {
    if RunUpBars(d.bars) != 5 then Unanswerable else if RedBars(d.bars) >= 4 then Fail else Pass
  }

  /** R3 as the look-back assignment reads it. */
  function LookbackVerdict(d: Day): Verdict
    requires d.Valid()
  {
    match AtGate(d)
    case None => Unanswerable
    case Some((_, now)) =>
      match d.assignment
      case VolumeBaseline => if now.volumeAverage.None? then Unanswerable else Pass
      case AbsoluteLevels =>
        if now.rsi.None? || now.stoch.None? then Unanswerable
        else if now.rsi.value < 50.0 || now.stoch.value < 50.0 then Fail else Pass
  }

  function RangeVerdict(d: Day): Verdict { if d.openingHigh.None? then Unanswerable else Pass }

  function Verdicts(d: Day): seq<Verdict>
    requires d.Valid()
  {
    [TrailVerdict(d), RunUpVerdict(d), LookbackVerdict(d), RangeVerdict(d)]
  }

  /** One failed rule kills the day even if another cannot be answered. */
  function StatusOf(checks: seq<Verdict>): GateStatus {
    if Fail in checks then Killed else if Unanswerable in checks then GateUnanswerable else Eligible
  }

  method EvaluateDayGate(d: Day) returns (checks: seq<Verdict>, status: GateStatus)
    requires d.Valid()
    ensures checks == Verdicts(d)
    ensures status == Killed <==> Fail in checks
    ensures status == Eligible <==> checks == [Pass, Pass, Pass, Pass]
    ensures status == StatusOf(checks)
  {
    hide TrailVerdict, RunUpVerdict, LookbackVerdict, RangeVerdict;
    var verdict := TrailVerdict(d);
    checks := [verdict];
    var killed, unanswerable := verdict == Fail, verdict == Unanswerable;

    verdict := RunUpVerdict(d);
    checks := checks + [verdict];
    killed, unanswerable := killed || verdict == Fail, unanswerable || verdict == Unanswerable;

    verdict := LookbackVerdict(d);
    checks := checks + [verdict];
    killed, unanswerable := killed || verdict == Fail, unanswerable || verdict == Unanswerable;

    verdict := RangeVerdict(d);
    checks := checks + [verdict];
    killed, unanswerable := killed || verdict == Fail, unanswerable || verdict == Unanswerable;
    status := if killed then Killed else if unanswerable then GateUnanswerable else Eligible;
  }

  // ---------------------------------------------------------------- the live rows

  datatype Action = Arm | Pull | Fill | FillUnanswerable

  datatype Row = Row(
    evaluatedAt: int, action: Action, openingHigh: real, barAt: int, volumeRatio: Option<real>,
    macdGreen: Option<bool>, rsiUp: Option<bool>, stochUp: Option<bool>,
    fillAt: Option<int>, fillPrice: Option<real>)

  predicate IsFill(r: Row) { r.action == Fill || r.action == FillUnanswerable }

  function Rising(now: Option<real>, prior: Option<real>): Option<bool> {
    if now.Some? && prior.Some? then Some(now.value > prior.value) else None
  }

  /** Arm or pull for the next interval. */
  function Momentum(bar: Bar, now: Indicators, level: real): Row {
    var ratio := if now.volumeAverage.Some? && now.volumeAverage.value > 0.0
      then Some(bar.volume as real / now.volumeAverage.value) else None;
    var green := if now.histogram.Some? then Some(now.histogram.value > 0.0) else None;
    var rsiUp, stochUp := Rising(now.rsi, now.priorRsi), Rising(now.stoch, now.priorStoch);
    var action := if green == Some(true) && ratio.Some? && ratio.value >= 1.0 && rsiUp == Some(true) &&
      stochUp == Some(true)
      then Arm else Pull;
    Row(DecisionAt(bar), action, level, bar.at, ratio, green, rsiUp, stochUp, None, None)
  }

  /** A print above the level that could be traded. */
  predicate Breaks(t: Trade, level: real, halts: seq<Window>) { t.price > level && !Halted(t.at, halts) }

  function FirstBreak(trades: seq<Trade>, level: real, halts: seq<Window>, start: int, end: int): (r: Option<Trade>)
    ensures r.Some? ==> r.value in trades && start <= r.value.at < end && Breaks(r.value, level, halts)
    ensures r.None? ==> forall t :: t in trades && start <= t.at < end ==> !Breaks(t, level, halts)
  {
    if trades == [] then None
    else if start <= trades[0].at < end && Breaks(trades[0], level, halts) then Some(trades[0])
    else FirstBreak(trades[1..], level, halts, start, end)
  }

  /** Positive NBBO evidence no later than the event being judged. */
  predicate QuoteKnownBy(quotes: seq<Quote>, start: int, at: int) {
    exists q :: q in quotes && start <= q.at <= at && q.bid > 0.0 && q.ask > 0.0
  }

  function FillRow(d: Day, level: real, armed: Row, fill: Trade): Row {
    var known := QuoteKnownBy(d.quotes, MinuteOf(fill.at), fill.at);
    armed.(evaluatedAt := fill.at, action := if known then Fill else FillUnanswerable, barAt := MinuteOf(fill.at),
           fillAt := Some(fill.at), fillPrice := if known then Some(level) else None)
  }

  predicate InSession(bar: Bar) { OPEN <= bar.at < CUTOFF }

  function IntervalEnd(bar: Bar): int { if DecisionAt(bar) < CUTOFF then DecisionAt(bar) else CUTOFF }

  /** The rows from bar i on; `armed` is the ARM row in force. */
  function RowsFrom(d: Day, level: real, i: nat, armed: Option<Row>): (rows: seq<Row>)
    requires d.Valid() && i <= |d.bars|
    decreases |d.bars| - i
  {
    if i == |d.bars| then []
    else if !InSession(d.bars[i]) then RowsFrom(d, level, i + 1, armed)
    else
      var bar := d.bars[i];
      var fill :=
        if armed.Some? then FirstBreak(d.trades, level, d.halts, armed.value.evaluatedAt, IntervalEnd(bar)) else None;
      if fill.Some? then [FillRow(d, level, armed.value, fill.value)]
      else if DecisionAt(bar) >= CUTOFF then []
      else
        var row := Momentum(bar, d.indicators[i], level);
        [row] + RowsFrom(d, level, i + 1, if row.action == Arm then Some(row) else None)
  }

  function LiveRows(d: Day): (rows: seq<Row>)
    requires d.Valid()
  {
    if StatusOf(Verdicts(d)) != Eligible || d.openingHigh.None? then []
    else RowsFrom(d, d.openingHigh.value, 0, None)
  }

  // ---------------------------------------------------------------- after the fill

  datatype PostAction = Hold | Sell | SellUnanswerable | BodyUnanswerable

  datatype PostFill = PostFill(evaluatedAt: int, action: PostAction, fillAt: int, body: Option<real>,
    exit: Option<Quote>)

  /** The body check: threshold in percent, delay None for "at the close of the fill's minute". */
  datatype BodyRule = BodyRule(threshold: real, delay: Option<nat>)

  function MeasurementAt(fillAt: int, delay: Option<nat>): int {
    match delay case None => MinuteOf(fillAt) + MINUTE case Some(d) => fillAt + d
  }

  function Visible(trades: seq<Trade>, start: int, end: int): (prices: seq<real>) {
    if trades == [] then []
    else (if start <= trades[0].at <= end then [trades[0].price] else []) + Visible(trades[1..], start, end)
  }

  function Highest(x: real, prices: seq<real>): real
    decreases |prices|
  {
    if prices == [] then x else Highest(if prices[0] > x then prices[0] else x, prices[1..])
  }

  function Lowest(x: real, prices: seq<real>): real
    decreases |prices|
  {
    if prices == [] then x else Lowest(if prices[0] < x then prices[0] else x, prices[1..])
  }

  function Distance(a: real, b: real): real { if a < b then b - a else a - b }

  function Body(first: real, high: real, low: real, last: real): Option<real> {
    if high - low > 0.0 then Some(Distance(last, first) / (high - low)) else None
  }

  function MeasuredBody(bar: Bar, trades: seq<Trade>, measurementAt: int, delay: Option<nat>): Option<real> {
    if delay.None? then Body(bar.first, bar.high, bar.low, bar.close)
    else
      var seen := Visible(trades, bar.at, measurementAt);
      if seen == [] then None
      else Body(bar.first, Highest(bar.first, seen), Lowest(bar.first, seen), seen[|seen| - 1])
  }

  predicate Executable(q: Quote, at: int, halts: seq<Window>) { q.at >= at && q.bid > 0.0 && !Halted(q.at, halts) }

  /** q is executable, and every quote listed before it is not. */
  ghost predicate FirstExecutable(q: Quote, quotes: seq<Quote>, at: int, halts: seq<Window>) {
    exists k :: 0 <= k < |quotes| && quotes[k] == q && Executable(q, at, halts)
                && forall j :: 0 <= j < k ==> !Executable(quotes[j], at, halts)
  }

  lemma {:induction false} FirstExecutableLater(q: Quote, quotes: seq<Quote>, at: int, halts: seq<Window>)
    requires quotes != [] && !Executable(quotes[0], at, halts) && FirstExecutable(q, quotes[1..], at, halts)
    ensures FirstExecutable(q, quotes, at, halts)
  {
    hide Executable;
    var rest := quotes[1..];
    var k :| 0 <= k < |rest| && rest[k] == q && Executable(q, at, halts)
             && forall j :: 0 <= j < k ==> !Executable(rest[j], at, halts);
    forall j | 0 <= j < k + 1 ensures !Executable(quotes[j], at, halts) {
      if j > 0 { assert quotes[j] == rest[j - 1]; }
    }
    assert quotes[k + 1] == q;
  }

  function FirstExecutableBid(quotes: seq<Quote>, at: int, halts: seq<Window>): (r: Option<Quote>)
    ensures r.Some? ==> FirstExecutable(r.value, quotes, at, halts)
    ensures r.None? ==> forall q :: q in quotes ==> !Executable(q, at, halts)
  {
    if quotes == [] then None
    else if Executable(quotes[0], at, halts) then Some(quotes[0])
    else
      var r := FirstExecutableBid(quotes[1..], at, halts);
      assert r.Some? ==> FirstExecutable(r.value, quotes, at, halts) by {
        if r.Some? { FirstExecutableLater(r.value, quotes, at, halts); }
      }
      r
  }

  function EvaluatePostFill(d: Day, fillAt: int, bar: Bar, rule: BodyRule): (r: PostFill)
    ensures r.action == BodyUnanswerable <==> r.body.None?
    ensures r.action == Sell <==> r.exit.Some?
    ensures r.exit.Some? ==> FirstExecutable(r.exit.value, d.quotes, r.evaluatedAt, d.halts)
    ensures r.action == SellUnanswerable ==> forall q :: q in d.quotes ==> !Executable(q, r.evaluatedAt, d.halts)
    ensures r.action == Hold ==> r.body.Some? && r.body.value >= rule.threshold
    ensures r.action == Sell || r.action == SellUnanswerable ==> r.body.Some? && r.body.value < rule.threshold
  {
    var at := MeasurementAt(fillAt, rule.delay);
    var body := MeasuredBody(bar, d.trades, at, rule.delay);
    if body.None? then PostFill(at, BodyUnanswerable, fillAt, None, None)
    else
      var pct := Some(body.value * 100.0);
      if pct.value >= rule.threshold then PostFill(at, Hold, fillAt, pct, None)
      else
        var exit := FirstExecutableBid(d.quotes, at, d.halts);
        PostFill(at, if exit.Some? then Sell else SellUnanswerable, fillAt, pct, exit)
  }

  /** The session bar in whose minute the fill happened. */
  function FillBar(bars: seq<Bar>, fillAt: int, i: nat): (r: Option<nat>)
    requires i <= |bars|
    ensures r.Some? ==> i <= r.value < |bars| && bars[r.value].at == MinuteOf(fillAt)
    decreases |bars| - i
  {
    if i == |bars| then None
    else if InSession(bars[i]) && bars[i].at == MinuteOf(fillAt) then Some(i)
    else FillBar(bars, fillAt, i + 1)
  }

  function AfterRows(d: Day, rows: seq<Row>, rule: BodyRule): Option<PostFill> {
    if rows == [] || rows[|rows| - 1].action != Fill || rows[|rows| - 1].fillAt.None? then None
    else
      var fillAt := rows[|rows| - 1].fillAt.value;
      match FillBar(d.bars, fillAt, 0)
      case None => None
      case Some(i) => Some(EvaluatePostFill(d, fillAt, d.bars[i], rule))
  }

  datatype Settled = Settled(checks: seq<Verdict>, status: GateStatus, live: seq<Row>, postFill: Option<PostFill>)

  function SettledDay(d: Day, rule: BodyRule): Settled
    requires d.Valid()
  {
    Settled(Verdicts(d), StatusOf(Verdicts(d)), LiveRows(d), AfterRows(d, LiveRows(d), rule))
  }

  method RunSettledNameDay(d: Day, rule: BodyRule) returns (r: Settled)
    requires d.Valid()
    ensures r == SettledDay(d, rule)
  {
    hide Verdicts, StatusOf, Momentum, FirstBreak, QuoteKnownBy, MinuteOf, EvaluatePostFill, AfterRows, FillBar,
      FillRow;
    var checks, status := EvaluateDayGate(d);
    if status != Eligible || d.openingHigh.None? {
      AfterNoFill(d, [], rule);
      return Settled(checks, status, [], None);
    }
    var level := d.openingHigh.value;
    var live: seq<Row> := [];
    var armed, intervalStart := false, 0;
    var armedFrom: Option<Row> := None;
    var i := 0;
    while i < |d.bars|
      invariant 0 <= i <= |d.bars|
      invariant armed <==> armedFrom.Some?
      invariant armed ==> intervalStart == armedFrom.value.evaluatedAt
      invariant LiveRows(d) == live + RowsFrom(d, level, i, armedFrom)
      invariant live == [] || !IsFill(live[|live| - 1])
    {
      var bar := d.bars[i];
      if InSession(bar) {
        var closeAt := DecisionAt(bar);
        if armed {
          var fill := FirstBreak(d.trades, level, d.halts, intervalStart, IntervalEnd(bar));
          if fill.Some? {
            AfterFill(d, live, level, armedFrom.value, fill.value, rule);
            live := live + [FillRow(d, level, armedFrom.value, fill.value)];
            if !QuoteKnownBy(d.quotes, MinuteOf(fill.value.at), fill.value.at) {
              return Settled(checks, status, live, None);
            }
            var fillBar := FillBar(d.bars, fill.value.at, 0);
            if fillBar.None? { return Settled(checks, status, live, None); }
            var post := EvaluatePostFill(d, fill.value.at, d.bars[fillBar.value], rule);
            return Settled(checks, status, live, Some(post));
          }
        }
        if closeAt >= CUTOFF {
          assert LiveRows(d) == live + [] == live;
          break;
        }
        var row := Momentum(bar, d.indicators[i], level);
        MomentumIsNoFill(bar, d.indicators[i], level);
        live := live + [row];
        armed := row.action == Arm;
        armedFrom := if armed then Some(row) else None;
        intervalStart := closeAt;
      }
      i := i + 1;
    }
    assert live + [] == live;
    AfterNoFill(d, live, rule);
    r := Settled(checks, status, live, None);
  }

  lemma {:induction false} AfterNoFill(d: Day, rows: seq<Row>, rule: BodyRule)
    requires rows == [] || !IsFill(rows[|rows| - 1])
    ensures AfterRows(d, rows, rule) == None
  {
  }

  lemma {:induction false} AfterFill(d: Day, rows: seq<Row>, level: real, armed: Row, fill: Trade, rule: BodyRule)
    ensures var row := FillRow(d, level, armed, fill);
      AfterRows(d, rows + [row], rule) ==
        if !QuoteKnownBy(d.quotes, MinuteOf(fill.at), fill.at) || FillBar(d.bars, fill.at, 0).None? then None
        else Some(EvaluatePostFill(d, fill.at, d.bars[FillBar(d.bars, fill.at, 0).value], rule))
  {
  }

  lemma {:induction false} MomentumIsNoFill(bar: Bar, now: Indicators, level: real)
    ensures !IsFill(Momentum(bar, now, level)) && Momentum(bar, now, level).evaluatedAt == DecisionAt(bar)
  {
  }
}
