/** What a settled name-day shows by a time t, and when it depends on anything after t. */
module Lookahead {
  import opened Wrappers
  import opened Halts
  import opened NameDay
  import opened NameDayLaws

  // ---------------------------------------------------------------- what is known at a time

  ghost function Known(trades: seq<Trade>, t: int): seq<Trade> {
    if trades == [] || trades[0].at > t then [] else [trades[0]] + Known(trades[1..], t)
  }

  /** The rows evaluated by time t. */
  ghost function By(rows: seq<Row>, t: int): seq<Row> {
    if rows == [] then []
    else (if rows[0].evaluatedAt <= t then [rows[0]] else []) + By(rows[1..], t)
  }

  lemma {:induction false} InBy(rows: seq<Row>, t: int, r: Row)
    ensures r in By(rows, t) <==> r in rows && r.evaluatedAt <= t
  {
    if rows != [] { InBy(rows[1..], t, r); }
  }

  /** How many bars have begun by t. */
  function Begun(bars: seq<Bar>, t: int): (n: nat)
    ensures n <= |bars| && (n < |bars| ==> bars[n].at > t)
    ensures forall k :: 0 <= k < n ==> bars[k].at <= t
  {
    if bars == [] || bars[0].at > t then 0 else 1 + Begun(bars[1..], t)
  }

  /** The day with the bars begun by t alone. */
  function Until(d: Day, t: int): (u: Day)
    requires d.Valid()
    ensures u.Valid()
  {
    d.(bars := d.bars[..Begun(d.bars, t)], indicators := d.indicators[..Begun(d.bars, t)])
  }

  /** Days with the same bars begun, that nobody could tell apart at time t: the same bar times and opens, the
      same bars and indicators of the minutes ended, and the same trades, quotes and halted instants so far. */
  ghost predicate SameSoFar(a: Day, b: Day, t: int) {
    && a.Valid() && b.Valid() && |a.bars| == |b.bars|
    && (forall i :: 0 <= i < |a.bars| ==> SameBarUpTo(a, b, i, t))
    && Known(a.trades, t) == Known(b.trades, t)
    && (forall q: Quote :: q.at <= t ==> (q in a.quotes <==> q in b.quotes))
    && (forall s: int :: s <= t ==> Halted(s, a.halts) == Halted(s, b.halts))
    && (t >= GATE_AT ==> a.openingHigh == b.openingHigh) && a.assignment == b.assignment
  }

  ghost predicate SameBarUpTo(a: Day, b: Day, i: nat, t: int)
    requires a.Valid() && b.Valid() && i < |a.bars| == |b.bars|
  {
    && a.bars[i].at == b.bars[i].at
    && (a.bars[i].at <= t ==> a.bars[i].first == b.bars[i].first)
    && (DecisionAt(a.bars[i]) <= t ==> a.bars[i] == b.bars[i] && a.indicators[i] == b.indicators[i])
  }

  /** Days that nobody could tell apart at time t; the bars that begin later are free, in number too. */
  ghost predicate SameUpTo(a: Day, b: Day, t: int) {
    a.Valid() && b.Valid() && SameSoFar(Until(a, t), Until(b, t), t)
  }

  lemma {:induction false} LaterBars(d: Day, t: int)
    requires d.Valid() && d.TimeOrdered()
    ensures forall k :: Begun(d.bars, t) <= k < |d.bars| ==> d.bars[k].at > t
    ensures Until(d, t).TimeOrdered()
  {
  }

  // ---------------------------------------------------------------- the rows of the bars begun

  /** A break known by t is found in both days. */
  lemma {:induction false} BreakIsKnown(
      xs: seq<Trade>, ys: seq<Trade>, level: real, v: seq<Window>, w: seq<Window>, start: int, end: int, t: int)
    requires forall i, j :: 0 <= i < j < |xs| ==> xs[i].at <= xs[j].at
    requires Known(xs, t) == Known(ys, t)
    requires forall s: int :: s <= t ==> Halted(s, v) == Halted(s, w)
    requires FirstBreak(xs, level, v, start, end).Some? && FirstBreak(xs, level, v, start, end).value.at <= t
    ensures FirstBreak(ys, level, w, start, end) == FirstBreak(xs, level, v, start, end)
  {
    hide Halted;
    var fill := FirstBreak(xs, level, v, start, end).value;
    assert fill in xs;
    assert xs[0].at <= fill.at;
    assert ys != [] && ys[0] == xs[0] && Known(xs[1..], t) == Known(ys[1..], t) by {
      assert Known(xs, t)[0] == xs[0];
      assert Known(xs, t)[1..] == Known(xs[1..], t);
      assert Known(ys, t)[1..] == Known(ys[1..], t);
    }
    assert Halted(xs[0].at, v) == Halted(xs[0].at, w);
    if start <= xs[0].at < end && Breaks(xs[0], level, v) {
    } else {
      BreakIsKnown(xs[1..], ys[1..], level, v, w, start, end, t);
    }
  }

  lemma {:induction false} SameFillRow(a: Day, b: Day, level: real, armed: Row, fill: Trade, t: int)
    requires SameSoFar(a, b, t) && fill.at <= t
    ensures FillRow(a, level, armed, fill) == FillRow(b, level, armed, fill)
  {
    hide MinuteOf, Known, Halted, SameBarUpTo;
    var start := MinuteOf(fill.at);
    if QuoteKnownBy(a.quotes, start, fill.at) {
      var q :| q in a.quotes && start <= q.at <= fill.at && q.bid > 0.0 && q.ask > 0.0;
      assert q in b.quotes;
    }
    if QuoteKnownBy(b.quotes, start, fill.at) {
      var q :| q in b.quotes && start <= q.at <= fill.at && q.bid > 0.0 && q.ask > 0.0;
      assert q in a.quotes;
    }
  }

  /** Nothing is evaluated by t when the bars still to come close later and no ARM row precedes t. */
  lemma {:induction false} RowsComeLater(d: Day, level: real, i: nat, armed: Option<Row>, t: int)
    requires d.Valid() && i <= |d.bars|
    requires forall k :: i <= k < |d.bars| && InSession(d.bars[k]) ==> DecisionAt(d.bars[k]) > t
    requires armed.Some? ==> armed.value.evaluatedAt > t
    ensures By(RowsFrom(d, level, i, armed), t) == []
    decreases |d.bars| - i
  {
    hide QuoteKnownBy, MinuteOf, Momentum, Breaks;
    if i < |d.bars| {
      var bar := d.bars[i];
      if !InSession(bar) {
        RowsComeLater(d, level, i + 1, armed, t);
      } else {
        var row := Momentum(bar, d.indicators[i], level);
        MomentumIsNoFill(bar, d.indicators[i], level);
        RowsComeLater(d, level, i + 1, if row.action == Arm then Some(row) else None, t);
      }
    }
  }

  ghost function BreakIn(d: Day, level: real, i: nat, armed: Option<Row>): Option<Trade>
    requires i < |d.bars|
  {
    if armed.Some? then FirstBreak(d.trades, level, d.halts, armed.value.evaluatedAt, IntervalEnd(d.bars[i])) else None
  }

  lemma {:induction false} SameBreak(a: Day, b: Day, level: real, i: nat, armed: Option<Row>, t: int)
    requires SameSoFar(a, b, t) && a.TimeOrdered() && b.TimeOrdered() && i < |a.bars|
    ensures var x, y := BreakIn(a, level, i, armed), BreakIn(b, level, i, armed);
      x == y || ((x.Some? ==> x.value.at > t) && (y.Some? ==> y.value.at > t))
  {
    hide Known, Breaks, Halted;
    var x, y := BreakIn(a, level, i, armed), BreakIn(b, level, i, armed);
    assert SameBarUpTo(a, b, i, t);
    if x.Some? && x.value.at <= t {
      BreakIsKnown(a.trades, b.trades, level, a.halts, b.halts, armed.value.evaluatedAt, IntervalEnd(a.bars[i]), t);
    }
    if y.Some? && y.value.at <= t {
      BreakIsKnown(b.trades, a.trades, level, b.halts, a.halts, armed.value.evaluatedAt, IntervalEnd(a.bars[i]), t);
    }
  }

  /** A break after t, or none while the bar closes after t: nothing more is evaluated by t. */
  lemma {:induction false} NothingByThen(d: Day, level: real, i: nat, armed: Option<Row>, t: int)
    requires d.Valid() && d.TimeOrdered() && i < |d.bars| && InSession(d.bars[i])
    requires var x := BreakIn(d, level, i, armed); if x.Some? then x.value.at > t else DecisionAt(d.bars[i]) > t
    ensures By(RowsFrom(d, level, i, armed), t) == []
  {
    hide FirstBreak, Momentum, Halted, QuoteKnownBy, MinuteOf;
    var x := BreakIn(d, level, i, armed);
    if x.None? && DecisionAt(d.bars[i]) < CUTOFF {
      var row := Momentum(d.bars[i], d.indicators[i], level);
      MomentumIsNoFill(d.bars[i], d.indicators[i], level);
      RowsComeLater(d, level, i + 1, if row.action == Arm then Some(row) else None, t);
    }
  }

  lemma {:induction false} RowsKnown(a: Day, b: Day, level: real, i: nat, armed: Option<Row>, t: int)
    requires SameSoFar(a, b, t) && a.TimeOrdered() && b.TimeOrdered() && i <= |a.bars|
    ensures By(RowsFrom(a, level, i, armed), t) == By(RowsFrom(b, level, i, armed), t)
    decreases |a.bars| - i
  {
    hide FirstBreak, Momentum, Halted, FillRow, Known, QuoteKnownBy;
    if i < |a.bars| {
      assert SameBarUpTo(a, b, i, t);
      if !InSession(a.bars[i]) {
        RowsKnown(a, b, level, i + 1, armed, t);
      } else {
        SameBreak(a, b, level, i, armed, t);
        var x, y := BreakIn(a, level, i, armed), BreakIn(b, level, i, armed);
        if x == y && x.Some? && x.value.at <= t {
          SameFillRow(a, b, level, armed.value, x.value, t);
        } else if x == y == None && DecisionAt(a.bars[i]) <= t {
          RowsKnownAfter(a, b, level, i, armed, t);
        } else {
          NothingByThen(a, level, i, armed, t);
          NothingByThen(b, level, i, armed, t);
        }
      }
    }
  }

  /** A bar that closes by t without a break writes the same row on both days. */
  lemma {:induction false} RowsKnownAfter(a: Day, b: Day, level: real, i: nat, armed: Option<Row>, t: int)
    requires SameSoFar(a, b, t) && a.TimeOrdered() && b.TimeOrdered() && i < |a.bars|
    requires InSession(a.bars[i]) && DecisionAt(a.bars[i]) <= t
    requires BreakIn(a, level, i, armed) == BreakIn(b, level, i, armed) == None
    ensures By(RowsFrom(a, level, i, armed), t) == By(RowsFrom(b, level, i, armed), t)
    decreases |a.bars| - i, 0
  {
    hide FirstBreak, Momentum, Halted, FillRow, Known, QuoteKnownBy;
    assert SameBarUpTo(a, b, i, t);
    if DecisionAt(a.bars[i]) < CUTOFF {
      var row := Momentum(a.bars[i], a.indicators[i], level);
      RowsKnown(a, b, level, i + 1, if row.action == Arm then Some(row) else None, t);
    }
  }

  // ---------------------------------------------------------------- the gate looks back only

  lemma {:induction false} SameIndexAt(a: Day, b: Day, at: int, i: nat, t: int)
    requires SameSoFar(a, b, t) && i <= |a.bars|
    ensures IndexAt(a.bars, at, i) == IndexAt(b.bars, at, i)
    decreases |a.bars| - i
  {
    hide Known, Halted;
    if i < |a.bars| {
      assert SameBarUpTo(a, b, i, t);
      SameIndexAt(a, b, at, i + 1, t);
    }
  }

  lemma {:induction false} SameRunUp(a: Day, b: Day, n: nat, t: int)
    requires SameSoFar(a, b, t) && n <= |a.bars| && t >= GATE_AT
    ensures RunUpBars(a.bars[..n]) == RunUpBars(b.bars[..n]) && RedBars(a.bars[..n]) == RedBars(b.bars[..n])
  {
    hide Known, Halted;
    if n > 0 {
      assert a.bars[..n][..n - 1] == a.bars[..n - 1] && b.bars[..n][..n - 1] == b.bars[..n - 1];
      assert SameBarUpTo(a, b, n - 1, t);
      SameRunUp(a, b, n - 1, t);
    }
  }

  
  lemma {:induction false} SameGate(a: Day, b: Day, t: int)
    requires SameSoFar(a, b, t) && t >= GATE_AT
    ensures Verdicts(a) == Verdicts(b)
  {
    hide Known, Halted;
    SameRunUp(a, b, |a.bars|, t);
    assert a.bars[..|a.bars|] == a.bars && b.bars[..|b.bars|] == b.bars;
    SameIndexAt(a, b, OPEN, 0, t);
    var i := IndexAt(a.bars, OPEN, 0);
    if i.Some? { assert SameBarUpTo(a, b, i.value, t); }
  }

  lemma {:induction false} IndexUntil(bars: seq<Bar>, n: nat, at: int, i: nat)
    requires i <= n <= |bars| && forall k :: n <= k < |bars| ==> bars[k].at > at
    ensures IndexAt(bars, at, i) == IndexAt(bars[..n], at, i)
    decreases n - i
  {
    if i < n && bars[i].at != at { IndexUntil(bars, n, at, i + 1); }
  }

  lemma {:induction false} RunUpUntil(bars: seq<Bar>, n: nat)
    requires n <= |bars| && forall k :: n <= k < |bars| ==> bars[k].at >= OPEN
    ensures RunUpBars(bars) == RunUpBars(bars[..n]) && RedBars(bars) == RedBars(bars[..n])
  {
    if n == |bars| {
      assert bars[..n] == bars;
    } else {
      RunUpUntil(bars[..|bars| - 1], n);
      assert bars[..|bars| - 1][..n] == bars[..n];
    }
  }

  /** From 09:31 on, bars that begin later do not touch the verdicts. */
  lemma {:induction false} GateUntil(d: Day, t: int)
    requires d.Valid() && d.TimeOrdered() && t >= GATE_AT
    ensures Verdicts(d) == Verdicts(Until(d, t))
  {
    LaterBars(d, t);
    RunUpUntil(d.bars, Begun(d.bars, t));
    IndexUntil(d.bars, Begun(d.bars, t), OPEN, 0);
  }

  /** From 09:31 on, the verdicts are settled. */
  lemma {:induction false} GateIsKnown(a: Day, b: Day, t: int)
    requires SameUpTo(a, b, t) && a.TimeOrdered() && b.TimeOrdered() && t >= GATE_AT
    ensures Verdicts(a) == Verdicts(b)
  {
    hide Verdicts, SameSoFar;
    GateUntil(a, t);
    GateUntil(b, t);
    SameGate(Until(a, t), Until(b, t), t);
  }

  // ---------------------------------------------------------------- a break that waits for a bar

  /** The ARM row in force after the rows. */
  function LastArm(rows: seq<Row>, armed: Option<Row>): Option<Row> {
    if rows == [] then armed
    else if rows[|rows| - 1].action == Arm then Some(rows[|rows| - 1])
    else None
  }

  /** The first break known by t since the ARM row. */
  function BreakSince(d: Day, level: real, arm: Option<Row>, t: int): Option<Trade> {
    if arm.None? then None else FirstBreak(d.trades, level, d.halts, arm.value.evaluatedAt, t + 1)
  }

  /** The fill row that such a break gives. */
  function Late(d: Day, level: real, arm: Option<Row>, t: int): seq<Row> {
    if BreakSince(d, level, arm, t).None? then []
    else [FillRow(d, level, arm.value, BreakSince(d, level, arm, t).value)]
  }

  ghost predicate LaterFrom(d: Day, i: nat) { exists k :: i <= k < |d.bars| && InSession(d.bars[k]) }

  /** A session bar is listed that begins after t. */
  ghost predicate LaterBar(d: Day, t: int) { LaterFrom(d, Begun(d.bars, t)) }

  /** A break that ends by t in a longer interval is the first one by t. */
  lemma {:induction false} ShorterInterval(
      trades: seq<Trade>, level: real, halts: seq<Window>, start: int, end: int, t: int)
    requires FirstBreak(trades, level, halts, start, end).Some? && t < end
    requires FirstBreak(trades, level, halts, start, end).value.at <= t
    ensures FirstBreak(trades, level, halts, start, t + 1) == FirstBreak(trades, level, halts, start, end)
  {
    hide Breaks;
    if !(start <= trades[0].at < end && Breaks(trades[0], level, halts)) {
      ShorterInterval(trades[1..], level, halts, start, end, t);
    }
  }

  /** Without a break by t in the interval of a bar that ends after t, there is none since the ARM row. */
  lemma {:induction false} NoBreakSince(d: Day, level: real, i: nat, armed: Option<Row>, t: int)
    requires d.TimeOrdered() && i < |d.bars| && t < IntervalEnd(d.bars[i])
    requires var x := BreakIn(d, level, i, armed); x.Some? ==> x.value.at > t
    ensures BreakSince(d, level, armed, t) == None
  {
    hide Breaks;
    var x, y := BreakIn(d, level, i, armed), BreakSince(d, level, armed, t);
    if x.Some? {
      FirstBreakIsEarliest(d.trades, level, d.halts, armed.value.evaluatedAt, IntervalEnd(d.bars[i]));
    }
  }

  /** Among bars that begin after t, the first one of the session writes the waiting fill, and nothing else is
      evaluated by t. */
  lemma {:induction false} AfterBegun(d: Day, level: real, i: nat, armed: Option<Row>, t: int)
    requires d.Valid() && d.TimeOrdered() && i <= |d.bars|
    requires forall k :: i <= k < |d.bars| ==> d.bars[k].at > t
    ensures By(RowsFrom(d, level, i, armed), t) == if LaterFrom(d, i) then Late(d, level, armed, t) else []
    decreases |d.bars| - i
  {
    hide FirstBreak, Momentum, Breaks, QuoteKnownBy, MinuteOf;
    if i < |d.bars| {
      if !InSession(d.bars[i]) {
        AfterBegun(d, level, i + 1, armed, t);
      } else {
        assert LaterFrom(d, i);
        var x := BreakIn(d, level, i, armed);
        if x.Some? && x.value.at <= t {
          ShorterInterval(d.trades, level, d.halts, armed.value.evaluatedAt, IntervalEnd(d.bars[i]), t);
        } else {
          NoBreakSince(d, level, i, armed, t);
          NothingByThen(d, level, i, armed, t);
        }
      }
    }
  }

  lemma {:induction false} LastArmNext(row: Row, rest: seq<Row>, armed: Option<Row>)
    ensures LastArm([row] + rest, armed) == LastArm(rest, if row.action == Arm then Some(row) else None)
  {
  }

  lemma {:induction false} ByNext(row: Row, rest: seq<Row>, t: int)
    ensures By([row] + rest, t) == (if row.evaluatedAt <= t then [row] else []) + By(rest, t)
  {
    assert ([row] + rest)[1..] == rest;
  }

  /** Armed with no break before the cutoff: nothing waits. */
  lemma {:induction false} NothingWaits(d: Day, level: real, i: nat, armed: Option<Row>, t: int)
    requires d.TimeOrdered() && i < |d.bars| && BreakIn(d, level, i, armed) == None
    requires t < CUTOFF <= DecisionAt(d.bars[i])
    ensures Late(d, level, armed, t) == []
  {
    NoBreakSince(d, level, i, armed, t);
  }

  lemma {:induction false} NothingLeft(d: Day, level: real, armed: Option<Row>, t: int)
    requires d.Valid()
    ensures RowsFrom(Until(d, t), level, Begun(d.bars, t), armed) == []
    ensures LastArm([], armed) == armed && By([], t) == []
  {
  }

  lemma {:induction false} ShownFrom(d: Day, level: real, i: nat, armed: Option<Row>, t: int)
    requires d.Valid() && d.TimeOrdered() && i <= Begun(d.bars, t)
    ensures var rows := RowsFrom(Until(d, t), level, i, armed);
      By(RowsFrom(d, level, i, armed), t)
      == By(rows, t) + if LaterBar(d, t) then Late(d, level, LastArm(rows, armed), t) else []
    decreases Begun(d.bars, t) - i, 1
  {
    LaterBars(d, t);
    if i == Begun(d.bars, t) {
      hide RowsFrom, By, Late, LastArm, LaterFrom;
      AfterBegun(d, level, i, armed, t);
      NothingLeft(d, level, armed, t);
    } else if !InSession(d.bars[i]) {
      hide By, Late, LastArm, LaterBar;
      ShownFrom(d, level, i + 1, armed, t);
    } else {
      ShownAt(d, level, i, armed, t);
    }
  }

  /** The row that a bar without a break writes, and the ARM row it leaves. */
  ghost function RowOf(d: Day, level: real, i: nat): Row
    requires d.Valid() && i < |d.bars|
  {
    Momentum(d.bars[i], d.indicators[i], level)
  }

  ghost function ArmAfter(d: Day, level: real, i: nat): Option<Row>
    requires d.Valid() && i < |d.bars|
  {
    if RowOf(d, level, i).action == Arm then Some(RowOf(d, level, i)) else None
  }

  lemma {:induction false} RowsStep(d: Day, level: real, i: nat, armed: Option<Row>)
    requires d.Valid() && i < |d.bars| && InSession(d.bars[i])
    ensures var x := BreakIn(d, level, i, armed);
      RowsFrom(d, level, i, armed)
      == if x.Some? then [FillRow(d, level, armed.value, x.value)]
         else if DecisionAt(d.bars[i]) >= CUTOFF then []
         else [RowOf(d, level, i)] + RowsFrom(d, level, i + 1, ArmAfter(d, level, i))
  {
    hide FirstBreak, Momentum, FillRow;
  }

  lemma {:induction false} UntilStep(d: Day, level: real, i: nat, armed: Option<Row>, t: int)
    requires d.Valid() && i < Begun(d.bars, t)
    ensures var u := Until(d, t);
      && i < |u.bars| && u.bars[i] == d.bars[i] && BreakIn(u, level, i, armed) == BreakIn(d, level, i, armed)
      && RowOf(u, level, i) == RowOf(d, level, i)
      && forall arm, fill :: FillRow(u, level, arm, fill) == FillRow(d, level, arm, fill)
  {
    hide Momentum, FirstBreak;
  }

  lemma {:induction false} ShownAt(d: Day, level: real, i: nat, armed: Option<Row>, t: int)
    requires d.Valid() && d.TimeOrdered() && i < Begun(d.bars, t) && InSession(d.bars[i])
    ensures var rows := RowsFrom(Until(d, t), level, i, armed);
      By(RowsFrom(d, level, i, armed), t)
      == By(rows, t) + if LaterBar(d, t) then Late(d, level, LastArm(rows, armed), t) else []
    decreases Begun(d.bars, t) - i, 0
  {
    hide RowsFrom, RowOf, FillRow, FirstBreak, LaterBar, Late, By, LastArm;
    var u, x := Until(d, t), BreakIn(d, level, i, armed);
    UntilStep(d, level, i, armed, t);
    RowsStep(d, level, i, armed);
    RowsStep(u, level, i, armed);
    hide Until;
    var rows := RowsFrom(u, level, i, armed);
    assert By(rows, t) + [] == By(rows, t);
    if x.Some? {
      FillIsNoArm(d, level, armed.value, x.value);
      FillEnds(rows, armed);
      NoLateWithoutArm(d, level, t);
    } else if DecisionAt(d.bars[i]) >= CUTOFF {
      NothingMore(armed);
      if LaterBar(d, t) {
        LaterBarIsEarly(d, t);
        NothingWaits(d, level, i, armed, t);
      }
    } else {
      var row, next := RowOf(d, level, i), ArmAfter(d, level, i);
      ShownFrom(d, level, i + 1, next, t);
      ShownNext(row, RowsFrom(d, level, i + 1, next), RowsFrom(u, level, i + 1, next), t,
                if LaterBar(d, t) then Late(d, level, LastArm(RowsFrom(u, level, i + 1, next), next), t) else []);
      LastArmNext(row, RowsFrom(u, level, i + 1, next), armed);
    }
  }

  lemma {:induction false} ShownNext(
      row: Row, all: seq<Row>, begun: seq<Row>, t: int, late: seq<Row>)
    requires By(all, t) == By(begun, t) + late
    ensures By([row] + all, t) == By([row] + begun, t) + late
  {
    hide By;
    ByNext(row, all, t);
    ByNext(row, begun, t);
  }

  lemma {:induction false} FillEnds(rows: seq<Row>, armed: Option<Row>)
    requires |rows| == 1 && rows[0].action != Arm
    ensures LastArm(rows, armed) == None
  {
  }

  lemma {:induction false} FillIsNoArm(d: Day, level: real, armed: Row, fill: Trade)
    ensures FillRow(d, level, armed, fill).action != Arm
  {
  }

  lemma {:induction false} NoLateWithoutArm(d: Day, level: real, t: int)
    ensures Late(d, level, None, t) == []
  {
  }

  lemma {:induction false} LaterBarIsEarly(d: Day, t: int)
    requires d.Valid() && d.TimeOrdered() && LaterBar(d, t)
    ensures t < CUTOFF
  {
    LaterBars(d, t);
  }

  /** A break known by t that no interval of the bars begun holds, since an ARM row that nothing followed. */
  ghost predicate Waiting(d: Day, t: int)
    requires d.Valid()
  {
    var rows := LiveRows(Until(d, t));
    && t < CUTOFF && d.openingHigh.Some? && rows != [] && rows[|rows| - 1].action == Arm
    && exists trade :: trade in d.trades && rows[|rows| - 1].evaluatedAt <= trade.at <= t
                       && Breaks(trade, d.openingHigh.value, d.halts)
  }

  /** What the waiting break shows once a later session bar is listed. */
  ghost function WaitingFill(d: Day, t: int): seq<Row>
    requires d.Valid()
  {
    if Waiting(d, t) then Late(d, d.openingHigh.value, LastArm(LiveRows(Until(d, t)), None), t) else []
  }

  lemma {:induction false} WaitingMeansLate(d: Day, t: int)
    requires d.Valid() && t < CUTOFF && d.openingHigh.Some?
    ensures var late := Late(d, d.openingHigh.value, LastArm(LiveRows(Until(d, t)), None), t);
      late == WaitingFill(d, t) && |late| == if Waiting(d, t) then 1 else 0
  {
    hide LiveRows, Breaks;
  }

  /** What a day shows by t: the rows of the bars begun, and the waiting fill if a later session bar is listed. */
  lemma {:induction false} ShownBy(d: Day, t: int)
    requires d.Valid() && d.TimeOrdered()
    ensures By(LiveRows(d), t) == By(LiveRows(Until(d, t)), t) + if LaterBar(d, t) then WaitingFill(d, t) else []
    ensures Waiting(d, t) ==> |WaitingFill(d, t)| == 1
  {
    hide Verdicts, StatusOf, RowsFrom, By, LaterBar, Late, Breaks;
    NothingBeforeTheGate(d, t);
    NothingBeforeTheGate(Until(d, t), t);
    if LaterBar(d, t) { LaterBarIsEarly(d, t); }
    if t < GATE_AT {
      NotWaitingEarly(d, t);
    } else {
      GateUntil(d, t);
      if d.openingHigh.Some? {
        ShownFrom(d, d.openingHigh.value, 0, None, t);
        if t < CUTOFF { WaitingMeansLate(d, t); }
      }
    }
    NoRows(d, t);
  }

  lemma {:induction false} NoRows(d: Day, t: int)
    requires d.Valid()
    ensures By([], t) == [] && (LiveRows(Until(d, t)) == [] ==> !Waiting(d, t))
  {
    hide LiveRows;
  }

  lemma {:induction false} NotWaitingEarly(d: Day, t: int)
    requires d.Valid() && By(LiveRows(Until(d, t)), t) == []
    ensures !Waiting(d, t)
  {
    hide LiveRows, Breaks;
    var rows := LiveRows(Until(d, t));
    if rows != [] { InBy(rows, t, rows[|rows| - 1]); }
  }

  lemma {:induction false} NothingBeforeTheGate(d: Day, t: int)
    requires d.Valid()
    ensures t < GATE_AT ==> By(LiveRows(d), t) == []
  {
    hide RowsFrom, Verdicts, StatusOf;
    if t < GATE_AT && LiveRows(d) != [] { RowsComeLater(d, d.openingHigh.value, 0, None, t); }
  }

  // ---------------------------------------------------------------- no lookahead

  /** A break after t, or none while the bar closes after t: nothing waits at t. */
  lemma {:induction false} NothingLate(d: Day, level: real, i: nat, armed: Option<Row>, t: int)
    requires d.Valid() && d.TimeOrdered() && i < |d.bars| && InSession(d.bars[i]) && t < CUTOFF
    requires var x := BreakIn(d, level, i, armed); if x.Some? then x.value.at > t else DecisionAt(d.bars[i]) > t
    ensures Late(d, level, LastArm(RowsFrom(d, level, i, armed), armed), t) == []
  {
    hide FirstBreak, Momentum, Breaks, QuoteKnownBy, MinuteOf, By, FillRow;
    NothingByThen(d, level, i, armed, t);
    var rows := RowsFrom(d, level, i, armed);
    if rows == [] {
      NothingWaits(d, level, i, armed, t);
    } else {
      hide RowsFrom;
      InBy(rows, t, rows[|rows| - 1]);
    }
  }

  lemma {:induction false} SameLate(a: Day, b: Day, level: real, i: nat, armed: Option<Row>, t: int)
    requires SameSoFar(a, b, t) && a.TimeOrdered() && b.TimeOrdered() && i <= |a.bars| && t < CUTOFF
    ensures Late(a, level, LastArm(RowsFrom(a, level, i, armed), armed), t)
      == Late(b, level, LastArm(RowsFrom(b, level, i, armed), armed), t)
    decreases |a.bars| - i, 1
  {
    hide FirstBreak, Momentum, Halted, FillRow, Known, QuoteKnownBy, Late, LastArm;
    if i == |a.bars| {
      NothingMore(armed);
      SameLateNow(a, b, level, armed, t);
    } else {
      assert SameBarUpTo(a, b, i, t);
      if !InSession(a.bars[i]) {
        SameLate(a, b, level, i + 1, armed, t);
      } else {
        SameBreak(a, b, level, i, armed, t);
        var x, y := BreakIn(a, level, i, armed), BreakIn(b, level, i, armed);
        if x == y && (if x.Some? then x.value.at <= t else DecisionAt(a.bars[i]) <= t) {
          SameLateAt(a, b, level, i, armed, t);
        } else {
          NothingLate(a, level, i, armed, t);
          NothingLate(b, level, i, armed, t);
        }
      }
    }
  }

  lemma {:induction false} NothingMore(armed: Option<Row>)
    ensures LastArm([], armed) == armed
  {
  }

  lemma {:induction false} SameLateNow(a: Day, b: Day, level: real, armed: Option<Row>, t: int)
    requires SameSoFar(a, b, t) && a.TimeOrdered() && b.TimeOrdered()
    ensures Late(a, level, armed, t) == Late(b, level, armed, t)
  {
    hide Breaks, Halted, Known, FillRow, SameBarUpTo;
    var x, y := BreakSince(a, level, armed, t), BreakSince(b, level, armed, t);
    if x.Some? {
      BreakIsKnown(a.trades, b.trades, level, a.halts, b.halts, armed.value.evaluatedAt, t + 1, t);
    } else if y.Some? {
      BreakIsKnown(b.trades, a.trades, level, b.halts, a.halts, armed.value.evaluatedAt, t + 1, t);
    }
    if x.Some? { SameFillRow(a, b, level, armed.value, x.value, t); }
  }

  lemma {:induction false} SameLateAt(a: Day, b: Day, level: real, i: nat, armed: Option<Row>, t: int)
    requires SameSoFar(a, b, t) && a.TimeOrdered() && b.TimeOrdered() && i < |a.bars| && t < CUTOFF
    requires InSession(a.bars[i])
    requires var x := BreakIn(a, level, i, armed);
      x == BreakIn(b, level, i, armed) && if x.Some? then x.value.at <= t else DecisionAt(a.bars[i]) <= t
    ensures Late(a, level, LastArm(RowsFrom(a, level, i, armed), armed), t)
      == Late(b, level, LastArm(RowsFrom(b, level, i, armed), armed), t)
    decreases |a.bars| - i, 0
  {
    hide FirstBreak, Momentum, Halted, Known, QuoteKnownBy, MinuteOf, Late;
    assert SameBarUpTo(a, b, i, t);
    if BreakIn(a, level, i, armed).Some? {
      NoLateWithoutArm(a, level, t);
      NoLateWithoutArm(b, level, t);
    } else {
      hide LastArm;
      var row := Momentum(a.bars[i], a.indicators[i], level);
      var next := if row.action == Arm then Some(row) else None;
      SameLate(a, b, level, i + 1, next, t);
      LastArmNext(row, RowsFrom(a, level, i + 1, next), armed);
      LastArmNext(row, RowsFrom(b, level, i + 1, next), armed);
    }
  }

  /** A break waits on both days or on neither, and would be the same fill. */
  lemma {:induction false} SameWaiting(a: Day, b: Day, t: int)
    requires SameUpTo(a, b, t) && a.TimeOrdered() && b.TimeOrdered()
    ensures Waiting(a, t) == Waiting(b, t) && WaitingFill(a, t) == WaitingFill(b, t)
  {
    hide Verdicts, StatusOf, RowsFrom, Late, Breaks, Known, Halted;
    var u, v := Until(a, t), Until(b, t);
    LaterBars(a, t);
    LaterBars(b, t);
    if t < GATE_AT {
      NothingBeforeTheGate(u, t);
      NothingBeforeTheGate(v, t);
      NotWaitingEarly(a, t);
      NotWaitingEarly(b, t);
    } else if t < CUTOFF && a.openingHigh.Some? {
      SameGate(u, v, t);
      SameLate(u, v, a.openingHigh.value, 0, None, t);
      LateUntil(a, t);
      LateUntil(b, t);
      WaitingMeansLate(a, t);
      WaitingMeansLate(b, t);
      NoRows(a, t);
      NoRows(b, t);
    }
  }

  /** A late fill does not depend on the bars. */
  lemma {:induction false} LateUntil(d: Day, t: int)
    requires d.Valid()
    ensures forall level, arm :: Late(Until(d, t), level, arm, t) == Late(d, level, arm, t)
  {
  }

  /** What is shown by t depends on nothing after t but the presence of a later session bar, and on that exactly
      when a break waits: the fill is written by the next bar listed, however late. */
  lemma {:induction false} NoLookahead(a: Day, b: Day, t: int)
    requires SameUpTo(a, b, t) && a.TimeOrdered() && b.TimeOrdered()
    ensures Waiting(a, t) == Waiting(b, t)
    ensures By(LiveRows(a), t) == By(LiveRows(b), t) <==> (Waiting(a, t) ==> (LaterBar(a, t) <==> LaterBar(b, t)))
  {
    hide LiveRows, SameSoFar, By, LaterBar, Waiting, WaitingFill;
    SameWaiting(a, b, t);
    ShownBy(a, t);
    ShownBy(b, t);
    SameBegunRows(a, b, t);
    NotWaiting(a, t);
  }

  lemma {:induction false} NotWaiting(d: Day, t: int)
    requires d.Valid()
    ensures !Waiting(d, t) ==> WaitingFill(d, t) == []
  {
    hide Waiting;
  }

  lemma {:induction false} SameBegunRows(a: Day, b: Day, t: int)
    requires SameUpTo(a, b, t) && a.TimeOrdered() && b.TimeOrdered()
    ensures By(LiveRows(Until(a, t)), t) == By(LiveRows(Until(b, t)), t)
  {
    hide RowsFrom, Verdicts, StatusOf, Known, Halted, By;
    var u, v := Until(a, t), Until(b, t);
    LaterBars(a, t);
    LaterBars(b, t);
    if t >= GATE_AT {
      SameGate(u, v, t);
      if u.openingHigh.Some? { RowsKnown(u, v, u.openingHigh.value, 0, None, t); }
    } else {
      NothingBeforeTheGate(u, t);
      NothingBeforeTheGate(v, t);
    }
  }

  // ---------------------------------------------------------------- the body check looks back only

  /** Every session bar before i had ended when the ARM row was written. */
  ghost predicate EndedBefore(d: Day, i: nat, arm: Option<Row>)
    requires i <= |d.bars|
  {
    arm.Some? ==>
      forall k :: 0 <= k < i && InSession(d.bars[k]) ==> DecisionAt(d.bars[k]) <= arm.value.evaluatedAt
  }

  /** Where a break waits, no session bar has begun since the ARM row. */
  lemma {:induction false} NoBarSince(d: Day, level: real, i: nat, armed: Option<Row>, t: int)
    requires d.Valid() && d.TimeOrdered() && i <= |d.bars| && EndedBefore(d, i, armed) && t < CUTOFF
    ensures var arm := LastArm(RowsFrom(d, level, i, armed), armed);
      Late(d, level, arm, t) != [] ==> EndedBefore(d, |d.bars|, arm)
    decreases |d.bars| - i
  {
    hide RowsFrom, Late, LastArm, BreakIn, FillRow;
    if i == |d.bars| {
      RowsEnd(d, level, armed);
    } else if !InSession(d.bars[i]) {
      RowsSkip(d, level, i, armed);
      NoBarSince(d, level, i + 1, armed, t);
    } else {
      RowsStep(d, level, i, armed);
      var x := BreakIn(d, level, i, armed);
      if x.Some? {
        BreakNeedsArm(d, level, i, armed);
        FillIsNoArm(d, level, armed.value, x.value);
        FillEnds(RowsFrom(d, level, i, armed), armed);
        NoLateWithoutArm(d, level, t);
      } else if DecisionAt(d.bars[i]) >= CUTOFF {
        NothingMore(armed);
        NothingWaits(d, level, i, armed, t);
      } else {
        MomentumIsNoFill(d.bars[i], d.indicators[i], level);
        NoBarSince(d, level, i + 1, ArmAfter(d, level, i), t);
        LastArmNext(RowOf(d, level, i), RowsFrom(d, level, i + 1, ArmAfter(d, level, i)), armed);
      }
    }
  }

  lemma {:induction false} BreakNeedsArm(d: Day, level: real, i: nat, armed: Option<Row>)
    requires i < |d.bars| && BreakIn(d, level, i, armed).Some?
    ensures armed.Some?
  {
  }

  lemma {:induction false} RowsEnd(d: Day, level: real, armed: Option<Row>)
    requires d.Valid()
    ensures RowsFrom(d, level, |d.bars|, armed) == [] && LastArm([], armed) == armed
  {
  }

  lemma {:induction false} RowsSkip(d: Day, level: real, i: nat, armed: Option<Row>)
    requires d.Valid() && i < |d.bars| && !InSession(d.bars[i])
    ensures RowsFrom(d, level, i, armed) == RowsFrom(d, level, i + 1, armed)
  {
  }

  lemma {:induction false} BarUntil(bars: seq<Bar>, n: nat, fillAt: int, i: nat)
    requires i <= n <= |bars| && forall k :: n <= k < |bars| ==> bars[k].at > fillAt
    ensures FillBar(bars, fillAt, i) == FillBar(bars[..n], fillAt, i)
    decreases n - i
  {
    hide MinuteOf;
    if i < n && !(InSession(bars[i]) && bars[i].at == MinuteOf(fillAt)) { BarUntil(bars, n, fillAt, i + 1); }
  }

  /** The minute of a waiting break has no bar. */
  lemma {:induction false} WaitingHasNoBar(d: Day, t: int, row: Row)
    requires d.Valid() && d.TimeOrdered() && row in WaitingFill(d, t)
    ensures row.fillAt.Some? && FillBar(d.bars, row.fillAt.value, 0) == None
  {
    hide Breaks, Verdicts, StatusOf, RowsFrom, QuoteKnownBy;
    LaterBars(d, t);
    var u, level := Until(d, t), d.openingHigh.value;
    var arm := LastArm(LiveRows(u), None);
    LateUntil(d, t);
    NoBarSince(u, level, 0, None, t);
    var fillAt := row.fillAt.value;
    assert arm.value.evaluatedAt <= fillAt <= t;
    BarUntil(d.bars, Begun(d.bars, t), fillAt, 0);
    var i := FillBar(u.bars, fillAt, 0);
    if i.Some? { FillBarInSession(u.bars, fillAt, 0); }
  }

  lemma {:induction false} FillBarInSession(bars: seq<Bar>, fillAt: int, i: nat)
    requires i <= |bars| && FillBar(bars, fillAt, i).Some?
    ensures InSession(bars[FillBar(bars, fillAt, i).value])
    decreases |bars| - i
  {
    hide MinuteOf;
    if !(InSession(bars[i]) && bars[i].at == MinuteOf(fillAt)) { FillBarInSession(bars, fillAt, i + 1); }
  }

  lemma {:induction false} SameFillBar(a: Day, b: Day, fillAt: int, i: nat, t: int)
    requires SameSoFar(a, b, t) && i <= |a.bars|
    ensures FillBar(a.bars, fillAt, i) == FillBar(b.bars, fillAt, i)
    decreases |a.bars| - i
  {
    hide Known, Halted, MinuteOf;
    if i < |a.bars| {
      assert SameBarUpTo(a, b, i, t);
      SameFillBar(a, b, fillAt, i + 1, t);
    }
  }

  lemma {:induction false} VisibleIsKnown(trades: seq<Trade>, start: int, end: int, t: int)
    requires forall i, j :: 0 <= i < j < |trades| ==> trades[i].at <= trades[j].at
    requires end <= t
    ensures Visible(trades, start, end) == Visible(Known(trades, t), start, end)
  {
    if trades != [] {
      if trades[0].at > t {
        NoneVisible(trades, start, end);
      } else {
        VisibleIsKnown(trades[1..], start, end, t);
        assert Known(trades, t)[1..] == Known(trades[1..], t);
      }
    }
  }

  lemma {:induction false} NoneVisible(trades: seq<Trade>, start: int, end: int)
    requires forall k :: 0 <= k < |trades| ==> trades[k].at > end
    ensures Visible(trades, start, end) == []
  {
    if trades != [] { NoneVisible(trades[1..], start, end); }
  }

  lemma {:induction false} SameBody(a: Day, b: Day, fillAt: int, i: nat, rule: BodyRule, t: int)
    requires SameSoFar(a, b, t) && a.TimeOrdered() && b.TimeOrdered()
    requires i < |a.bars| && a.bars[i].at == MinuteOf(fillAt) && MeasurementAt(fillAt, rule.delay) <= t
    ensures var at := MeasurementAt(fillAt, rule.delay);
      MeasuredBody(a.bars[i], a.trades, at, rule.delay) == MeasuredBody(b.bars[i], b.trades, at, rule.delay)
  {
    hide Known, Halted, MinuteOf, Visible, Body, Highest, Lowest;
    var at := MeasurementAt(fillAt, rule.delay);
    assert SameBarUpTo(a, b, i, t);
    VisibleIsKnown(a.trades, a.bars[i].at, at, t);
    VisibleIsKnown(b.trades, a.bars[i].at, at, t);
  }

  /** A fill known by t, in a minute that has its bar, is the last row of both days. */
  lemma {:induction false} FillIsKnown(a: Day, b: Day, t: int)
    requires SameUpTo(a, b, t) && a.TimeOrdered() && b.TimeOrdered()
    requires LiveRows(a) != [] && IsFill(LiveRows(a)[|LiveRows(a)| - 1])
    requires LiveRows(a)[|LiveRows(a)| - 1].evaluatedAt <= t
    requires var at := LiveRows(a)[|LiveRows(a)| - 1].fillAt; at.Some? && FillBar(a.bars, at.value, 0).Some?
    ensures LiveRows(b) != [] && LiveRows(b)[|LiveRows(b)| - 1] == LiveRows(a)[|LiveRows(a)| - 1]
  {
    hide LiveRows, SameSoFar, By, LaterBar, WaitingFill, FillBar;
    var fill := LiveRows(a)[|LiveRows(a)| - 1];
    ShownBy(a, t);
    ShownBy(b, t);
    SameBegunRows(a, b, t);
    InBy(LiveRows(a), t, fill);
    if fill in WaitingFill(a, t) { WaitingHasNoBar(a, t, fill); }
    assert fill in By(LiveRows(Until(a, t)), t);
    InBy(LiveRows(b), t, fill);
    var k :| 0 <= k < |LiveRows(b)| && LiveRows(b)[k] == fill;
    FillEndsTheDay(b, k);
  }

  lemma {:induction false} SameFillMinute(a: Day, b: Day, fillAt: int, t: int)
    requires SameUpTo(a, b, t) && a.TimeOrdered() && b.TimeOrdered() && fillAt <= t
    ensures var i := FillBar(a.bars, fillAt, 0);
      && i == FillBar(b.bars, fillAt, 0)
      && (i.Some? ==> i.value < Begun(a.bars, t) == Begun(b.bars, t))
  {
    hide Known, Halted, MinuteOf, FillBar;
    LaterBars(a, t);
    LaterBars(b, t);
    BarUntil(a.bars, Begun(a.bars, t), fillAt, 0);
    BarUntil(b.bars, Begun(b.bars, t), fillAt, 0);
    SameFillBar(Until(a, t), Until(b, t), fillAt, 0, t);
  }

  /** The body verdict depends only on what was known when it was taken; later bars do not touch it. */
  lemma {:induction false} BodyVerdictIsKnown(a: Day, b: Day, rule: BodyRule, t: int)
    requires SameUpTo(a, b, t) && a.TimeOrdered() && b.TimeOrdered()
    requires AfterRows(a, LiveRows(a), rule).Some?
    requires AfterRows(a, LiveRows(a), rule).value.evaluatedAt <= t
    ensures AfterRows(b, LiveRows(b), rule).Some?
    ensures var p, q := AfterRows(a, LiveRows(a), rule).value, AfterRows(b, LiveRows(b), rule).value;
      p.(action := q.action, exit := q.exit) == q && (p.action == Hold <==> q.action == Hold)
  {
    hide LiveRows, SameSoFar, FillBar, MeasuredBody, FirstExecutableBid, MinuteOf, Begun;
    var rows := LiveRows(a);
    FillEndsTheDay(a, |rows| - 1);
    var fillAt := rows[|rows| - 1].fillAt.value;
    FillIsKnown(a, b, t);
    SameFillMinute(a, b, fillAt, t);
    var i := FillBar(a.bars, fillAt, 0).value;
    LaterBars(a, t);
    LaterBars(b, t);
    SameBody(Until(a, t), Until(b, t), fillAt, i, rule, t);
  }

  // ---------------------------------------------------------------- a fill that waits for a bar

  const LEVEL := 10.0

  const READY := Indicators(Some(9.0), Some(1.0), Some(100.0), Some(60.0), Some(55.0), Some(60.0), Some(55.0))

  function Steady(at: int): Bar { Bar(at, 9.5, 10.0, 9.0, 9.8, 100) }

  // Five bars before 09:30 and the 09:30 bar, which arms; a print above the level ten seconds after 09:31.
  const OPENING := [Steady(RUN_UP), Steady(566 * MINUTE), Steady(567 * MINUTE), Steady(568 * MINUTE),
                    Steady(569 * MINUTE), Steady(OPEN)]
  const PRINT := Trade(GATE_AT + 10 * SECOND, 10.5)

  function Broken(later: seq<Bar>): Day {
    Day(OPENING + later, seq(|OPENING + later|, i => READY), [PRINT], [], [], Some(LEVEL), VolumeBaseline)
  }

  /** The same day with and without a bar of 09:35, seen at 09:32: nobody could tell them apart, but the fill of
      09:31:10 is there only with the later bar. */
  lemma {:induction false} LaterBarShowsTheFill()
    ensures var with, without, t := Broken([Steady(575 * MINUTE)]), Broken([]), 572 * MINUTE;
      && with.TimeOrdered() && without.TimeOrdered() && SameUpTo(with, without, t)
      && Waiting(with, t) && LaterBar(with, t) && !LaterBar(without, t)
      && |By(LiveRows(with), t)| == |By(LiveRows(without), t)| + 1
  {
    hide LiveRows, By, Waiting, SameSoFar, LaterFrom, Begun, Until, Broken, Steady;
    var with, without, t := Broken([Steady(575 * MINUTE)]), Broken([]), 572 * MINUTE;
    BegunOpening([Steady(575 * MINUTE)]);
    BegunOpening([]);
    BrokenAgree();
    BrokenLater();
    BrokenWaits([Steady(575 * MINUTE)]);
    ShownBy(with, t);
    ShownBy(without, t);
    SameBegunRows(with, without, t);
  }

  lemma {:induction false} BegunOpening(later: seq<Bar>)
    requires later == [] || later == [Steady(575 * MINUTE)]
    ensures Broken(later).Valid() && Broken(later).TimeOrdered()
    ensures Begun(Broken(later).bars, 572 * MINUTE) == 6 && Until(Broken(later), 572 * MINUTE) == Broken([])
  {
    hide Begun, Steady;
    OpeningTimes(later);
    var bars := OPENING + later;
    var n := Begun(bars, 572 * MINUTE);
    assert n == 6;
    assert bars[..6] == OPENING == OPENING + [];
    assert seq(|bars|, i => READY)[..6] == seq(|OPENING + []|, i => READY);
  }

  lemma {:induction false} OpeningTimes(later: seq<Bar>)
    requires later == [] || later == [Steady(575 * MINUTE)]
    ensures var bars := OPENING + later;
      && (forall i, j :: 0 <= i < j < |bars| ==> bars[i].at <= bars[j].at)
      && (forall k :: 0 <= k < 6 ==> bars[k].at <= OPEN)
      && (later != [] ==> bars[6].at == 575 * MINUTE)
  {
    var bars := OPENING + later;
    assert later != [] ==> bars[6] == later[0];
    assert forall k :: 0 <= k < 6 ==> bars[k] == OPENING[k];
  }

  lemma {:induction false} BrokenAgree()
    ensures SameSoFar(Broken([]), Broken([]), 572 * MINUTE)
  {
    hide Known, Halted;
  }

  lemma {:induction false} BrokenLater()
    ensures LaterFrom(Broken([Steady(575 * MINUTE)]), 6) && !LaterFrom(Broken([]), 6)
  {
    var d := Broken([Steady(575 * MINUTE)]);
    assert |d.bars| == 7 && d.bars[6] == Steady(575 * MINUTE) && InSession(d.bars[6]);
    assert |Broken([]).bars| == 6;
  }

  lemma {:induction false} BrokenWaits(later: seq<Bar>)
    requires Until(Broken(later), 572 * MINUTE) == Broken([])
    ensures Waiting(Broken(later), 572 * MINUTE)
  {
    hide Momentum, LiveRows, Until;
    OpeningRows();
    MomentumIsNoFill(Steady(OPEN), READY, LEVEL);
    var d := Broken(later);
    var rows := LiveRows(Until(d, 572 * MINUTE));
    assert rows == [Momentum(Steady(OPEN), READY, LEVEL)];
    assert rows[|rows| - 1].evaluatedAt == GATE_AT;
    assert PRINT in d.trades && Breaks(PRINT, LEVEL, d.halts);
    IsWaiting(d, 572 * MINUTE, PRINT);
  }

  lemma {:induction false} IsWaiting(d: Day, t: int, trade: Trade)
    requires d.Valid() && t < CUTOFF && d.openingHigh.Some?
    requires var rows := LiveRows(Until(d, t));
      rows != [] && rows[|rows| - 1].action == Arm && rows[|rows| - 1].evaluatedAt <= trade.at <= t
    requires trade in d.trades && Breaks(trade, d.openingHigh.value, d.halts)
    ensures Waiting(d, t)
  {
    hide LiveRows, Until, Breaks;
  }

  lemma {:induction false} OpeningRows()
    ensures LiveRows(Broken([])) == [Momentum(Steady(OPEN), READY, LEVEL)]
    ensures Momentum(Steady(OPEN), READY, LEVEL).action == Arm
  {
    OpeningVerdicts();
    SteadyArms();
    hide Verdicts, Momentum, RowsFrom;
    var d := Broken([]);
    assert d.bars == OPENING;
    QuietUntilOpen(d, 0);
    RowsStep(d, LEVEL, 5, None);
    RowsEnd(d, LEVEL, ArmAfter(d, LEVEL, 5));
    var row := Momentum(Steady(OPEN), READY, LEVEL);
    assert [row] + [] == [row];
  }

  lemma {:induction false} SteadyArms()
    ensures Momentum(Steady(OPEN), READY, LEVEL).action == Arm
  {
  }

  lemma {:induction false} QuietUntilOpen(d: Day, i: nat)
    requires d.Valid() && d.bars == OPENING && i <= 5
    ensures RowsFrom(d, LEVEL, i, None) == RowsFrom(d, LEVEL, 5, None)
    decreases 5 - i
  {
    if i < 5 {
      RowsSkip(d, LEVEL, i, None);
      QuietUntilOpen(d, i + 1);
    }
  }

  lemma {:induction false} OpeningVerdicts()
    ensures StatusOf(Verdicts(Broken([]))) == Eligible
  {
    hide RunUpBars, RedBars;
    var d := Broken([]);
    assert d.bars == OPENING;
    OpeningRunUp(5);
    assert OPENING[..5] + [Steady(OPEN)] == OPENING;
    IndexUntilOpen(d.bars, 0);
    RunUpSkipsOpen();
  }

  lemma {:induction false} IndexUntilOpen(bars: seq<Bar>, i: nat)
    requires bars == OPENING && i <= 5
    ensures IndexAt(bars, OPEN, i) == Some(5)
    decreases 5 - i
  {
    if i < 5 { IndexUntilOpen(bars, i + 1); }
  }

  lemma {:induction false} OpeningRunUp(n: nat)
    requires n <= 5
    ensures RunUpBars(OPENING[..n]) == n && RedBars(OPENING[..n]) == 0
  {
    if n > 0 {
      OpeningRunUp(n - 1);
      assert OPENING[..n][..n - 1] == OPENING[..n - 1];
    }
  }

  lemma {:induction false} RunUpSkipsOpen()
    ensures RunUpBars(OPENING) == 5 && RedBars(OPENING) == 0
  {
    OpeningRunUp(5);
    assert OPENING[..|OPENING| - 1] == OPENING[..5];
  }
}
