/** The batch engine of analysis/atr_flip.py: three passes over arrays. Its loops compute exactly
    the rows of AtrTrail, for either seed. */
module AtrBatch {
  import opened Arithmetic
  import opened Sequences
  import opened Wrappers
  import opened AtrTrail

  lemma {:induction false} RangeUpto(bars: seq<Bar>, s: Settings, i: nat)
    requires Usable(s) && !s.guard && FirstValid(s.period) <= i < |bars|
    ensures Rows(bars, s)[i].tr
         == Some(Unguarded(bars[i - 1], bars[i],
                           Capped(Span(bars[i]), Mean(Spans(bars)[i + 1 - s.period..i + 1], s.period))))
  {
    hide Rows, Unguarded, Capped, Mean, Wilders, Loss, StopAfter, TrueRanges;
    RowIs(bars, s, i);
    SpansUpto(bars, s.period, i);
  }

  lemma {:induction false} SpansUpto(bars: seq<Bar>, period: nat, i: nat)
    requires 1 <= period <= i + 1 <= |bars|
    ensures Spans(Upto(bars, i)[i + 1 - period..]) == Spans(bars)[i + 1 - period..i + 1]
  {
  }

  /** The array holds the true ranges of the bars. */
  ghost predicate HoldsRanges(tr: array<Option<real>>, bars: seq<Bar>, s: Settings)
    requires Usable(s)
    reads tr
  {
    tr.Length == |bars| && forall k :: 0 <= k < |bars| ==> tr[k] == Rows(bars, s)[k].tr
  }

  /** The array holds the averages of the bars. */
  ghost predicate HoldsAverages(w: array<Option<real>>, bars: seq<Bar>, s: Settings)
    requires Usable(s)
    reads w
  {
    w.Length == |bars| && forall k :: 0 <= k < |bars| ==> w[k] == Rows(bars, s)[k].wilders
  }

  /** First pass: the modified true range of every bar that has one. */
  method FillTrueRanges(bars: seq<Bar>, s: Settings) returns (tr: array<Option<real>>)
    requires Usable(s) && !s.guard
    ensures fresh(tr) && HoldsRanges(tr, bars, s)
  {
    hide RowAfter, Rows, Mean;
    ghost var rows := Rows(bars, s);
    forall k | 0 <= k < |bars| ensures rows[k].tr.Some? <==> FirstValid(s.period) <= k {
      RowRecurrence(bars, s, k);
    }
    var n, period := |bars|, s.period;
    var hl := Spans(bars);
    tr := new Option<real>[n](_ => None);
    var i := 1;
    while i < n
      invariant 1 <= i
      invariant forall k :: 0 <= k < n ==> tr[k] == if k < i then rows[k].tr else None
    {
      if i >= period - 1 {
        var average := Mean(hl[i - period + 1..i + 1], period);
        var prev, cur := bars[i - 1], bars[i];
        var hilo := Min(hl[i], 1.5 * average);
        var href := if cur.low <= prev.high then cur.high - prev.close
                    else cur.high - prev.close - 0.5 * (cur.low - prev.high);
        var lref := if cur.high >= prev.low then prev.close - cur.low
                    else prev.close - cur.low - 0.5 * (prev.low - cur.high);
        RangeUpto(bars, s, i);
        tr[i] := Some(Max(Max(hilo, href), lref));
      }
      i := i + 1;
    }
  }

  /** The mean of the true ranges at the given bars. */
  method SeedMean(tr: array<Option<real>>, seeds: seq<nat>, period: nat, ghost ranges: seq<real>) returns (mean: real)
    requires period >= 1 && |seeds| == |ranges|
    requires forall k :: 0 <= k < |seeds| ==> seeds[k] < tr.Length && tr[seeds[k]] == Some(ranges[k])
    ensures mean == Mean(ranges, period)
  {
    var total := 0.0;
    for k := 0 to |seeds|
      invariant total == Sum(ranges[..k])
    {
      assert ranges[..k + 1][..k] == ranges[..k];
      total := total + tr[seeds[k]].value;
    }
    assert ranges[..|seeds|] == ranges;
    mean := total / period as real;
  }

  /** The bars that have a true range. */
  method ValidBars(bars: seq<Bar>, s: Settings, tr: array<Option<real>>) returns (valid: seq<nat>)
    requires Usable(s) && HoldsRanges(tr, bars, s)
    ensures |valid| == if |bars| > FirstValid(s.period) then |bars| - FirstValid(s.period) else 0
    ensures forall k :: 0 <= k < |valid| ==> valid[k] == FirstValid(s.period) + k
  {
    hide Rows, Opens, Follows;
    valid := [];
    for i := 0 to |bars|
      invariant |valid| == if i > FirstValid(s.period) then i - FirstValid(s.period) else 0
      invariant forall k :: 0 <= k < |valid| ==> valid[k] == FirstValid(s.period) + k
    {
      RowRecurrence(bars, s, i);
      if tr[i].Some? { valid := valid + [i]; }
    }
  }

  /** Second pass: the Wilders average over the valid true ranges. */
  method FillWilders(bars: seq<Bar>, s: Settings, tr: array<Option<real>>) returns (w: array<Option<real>>)
    requires Usable(s) && HoldsRanges(tr, bars, s)
    ensures fresh(w) && HoldsAverages(w, bars, s)
  {
    hide RowAfter, Rows, TrueRanges, Mean, Smooth, Advance, Placed, LossOf;
    ghost var rows := Rows(bars, s);
    var n, period := |bars|, s.period;
    w := new Option<real>[n](_ => None);
    forall k | 0 <= k < n ensures rows[k].wilders.Some? <==> SeedBar(s) <= k {
      RowRecurrence(bars, s, k);
    }
    var valid := ValidBars(bars, s, tr);
    if |valid| >= if s.seed == "sma5" then period else 1 {
      var start, prevW;
      SeedRecurrence(bars, s);
      if s.seed == "sma5" {
        start := valid[period - 1];
        prevW := SeedMean(tr, valid[..period], period, TrueRanges(Upto(bars, SeedBar(s)), s));
      } else {
        start, prevW := valid[0], tr[valid[0]].value;
      }
      w[start] := Some(prevW);
      SmoothFrom(bars, s, tr, w, start, prevW);
    }
  }

  /** The recursion from the seed bar on. */
  method SmoothFrom(
      bars: seq<Bar>, s: Settings, tr: array<Option<real>>, w: array<Option<real>>, start: nat, seed: real)
    requires Usable(s) && HoldsRanges(tr, bars, s) && w != tr && w.Length == |bars|
    requires start == SeedBar(s) < |bars| && Rows(bars, s)[start].wilders == Some(seed)
    requires forall k :: 0 <= k < |bars| ==> w[k] == if k == start then Some(seed) else None
    modifies w
    ensures HoldsAverages(w, bars, s)
  {
    hide RowAfter, Rows, TrueRanges, Mean, Smooth, Advance, Placed, LossOf;
    ghost var rows := Rows(bars, s);
    var n, period, prevW := |bars|, s.period, seed;
    forall k | 0 <= k < n ensures rows[k].wilders.Some? <==> start <= k { RowRecurrence(bars, s, k); }
    var i := start + 1;
    while i < n
      invariant start < i <= n && rows[i - 1].wilders == Some(prevW)
      invariant forall k :: 0 <= k < n ==> w[k] == if k < i then rows[k].wilders else None
    {
      RowRecurrence(bars, s, i);
      if tr[i].Some? {
        prevW := Smooth(prevW, tr[i].value, period);
        w[i] := Some(prevW);
      }
      i := i + 1;
    }
  }

  /** Third pass: the flip machine over closes and losses. */
  method RunFlips(bars: seq<Bar>, s: Settings, tr: array<Option<real>>, w: array<Option<real>>) returns (rows: seq<Row>)
    requires Usable(s) && HoldsRanges(tr, bars, s) && HoldsAverages(w, bars, s)
    ensures rows == Rows(bars, s)
  {
    hide RowAfter, Rows, Smooth, Mean, TrueRange;
    rows := [];
    var curState: Option<Side>, curTrail, age := None, 0.0, 0;
    for i := 0 to |bars|
      invariant rows == Rows(bars, s)[..i]
      invariant curState.Some? <==> i > SeedBar(s)
      invariant curState.Some? ==> rows[i - 1].stop.Some?
      invariant curState.Some? ==> var stop := rows[i - 1].stop.value;
        curState.value == stop.side && curTrail == stop.level && age == stop.age
    {
      RowRecurrence(bars, s, i);
      TakeNext(Rows(bars, s), i);
      var b, flip: Option<Flip> := bars[i], None;
      if w[i].None? {
        assert Rows(bars, s)[i] == Row(b, tr[i], None, None, None);
        rows := rows + [Row(b, tr[i], None, None, None)];
      } else {
        var loss := s.factor * w[i].value;
        if curState.None? {
          curState, curTrail, age := Some(Long), b.close - loss, 0;
        } else {
          age := age + 1;
          if curState.value.Long? {
            if b.close > curTrail {
              curTrail := Max(curTrail, b.close - loss);
            } else {
              curState, curTrail, flip, age := Some(Short), b.close + loss, Some(Sell), 0;
            }
          } else {
            if b.close < curTrail {
              curTrail := Min(curTrail, b.close + loss);
            } else {
              curState, curTrail, flip, age := Some(Long), b.close - loss, Some(Buy), 0;
            }
          }
        }
        assert Rows(bars, s)[i].stop.value == Stop(curState.value, curTrail, flip, age);
        rows := rows + [Row(b, tr[i], w[i], Some(loss), Some(Stop(curState.value, curTrail, flip, age)))];
      }
    }
  }

  /** One run over one ascending session. */
  method ComputeAtrTrail(bars: seq<Bar>, s: Settings) returns (rows: seq<Row>)
    requires Usable(s) && !s.guard
    ensures rows == Rows(bars, s)
  {
    var tr := FillTrueRanges(bars, s);
    var w := FillWilders(bars, s, tr);
    rows := RunFlips(bars, s, tr, w);
  }
}
