/** Whole-run laws of the trailing stop: bounds on the average, the side and direction of the stop,
    the alternation of flips, the effect of the seed and the effect of the gap guard. */
module AtrLaws {
  import opened Arithmetic
  import opened Wrappers
  import opened AtrTrail

  ghost predicate WellFormed(h: seq<Bar>) {
    forall i :: 0 <= i < |h| ==> h[i].low <= h[i].high
  }

  // ---------------------------------------------------------------- the average

  ghost predicate Within(xs: seq<real>, lo: real, hi: real) {
    forall k :: 0 <= k < |xs| ==> lo <= xs[k] <= hi
  }

  lemma {:induction false} SumBounds(xs: seq<real>, lo: real, hi: real)
    requires Within(xs, lo, hi)
    ensures Times(lo, |xs| as real) <= Sum(xs) <= Times(hi, |xs| as real)
  {
    if xs == [] {
      TimesUnits(lo);
      TimesUnits(hi);
    } else {
      hide Times;
      var rest, n := xs[..|xs| - 1], (|xs| - 1) as real;
      SumBounds(rest, lo, hi);
      TimesOneMore(lo, n);
      TimesOneMore(hi, n);
      assert |xs| as real == n + 1.0;
    }
  }

  lemma {:induction false} MeanBounds(xs: seq<real>, period: nat, lo: real, hi: real)
    requires period >= 1 && |xs| == period && Within(xs, lo, hi)
    ensures lo <= Mean(xs, period) <= hi
  {
    hide Times, Ratio, Sum, Within;
    SumBounds(xs, lo, hi);
    RatioBounds(Sum(xs), period as real, lo, hi);
  }

  /** The weight of the new value in one smoothing step. */
  function Weight(period: nat): real
    requires period >= 1
  {
    Ratio(1.0, period as real)
  }

  /** One smoothing step is a weighted average of its two arguments. */
  lemma {:induction false} SmoothWeights(w: real, t: real, period: nat)
    requires period >= 1
    ensures 0.0 <= Weight(period) <= 1.0
    ensures Smooth(w, t, period) == Times(1.0 - Weight(period), w) + Times(Weight(period), t)
  {
    hide Times, Ratio;
    StepWeights(w, t, period as real);
  }

  /** Smoothing is monotone in both arguments. */
  lemma {:induction false} SmoothMonotone(w: real, t: real, w': real, t': real, period: nat)
    requires period >= 1 && w <= w' && t <= t'
    ensures Smooth(w, t, period) <= Smooth(w', t', period)
  {
    hide Smooth, Weight, Times;
    SmoothWeights(w, t, period);
    SmoothWeights(w', t', period);
    TimesMonotone(1.0 - Weight(period), w, w');
    TimesMonotone(Weight(period), t, t');
  }

  lemma {:induction false} SmoothFixed(x: real, period: nat)
    requires period >= 1
    ensures Smooth(x, x, period) == x
  {
    hide Ratio;
    TimesUnits(period as real);
    RatioUnique(0.0, period as real, 0.0);
  }

  lemma {:induction false} SmoothBounds(w: real, t: real, period: nat, lo: real, hi: real)
    requires period >= 1 && lo <= w <= hi && lo <= t <= hi
    ensures lo <= Smooth(w, t, period) <= hi
  {
    hide Smooth;
    SmoothMonotone(lo, lo, w, t, period);
    SmoothMonotone(w, t, hi, hi, period);
    SmoothFixed(lo, period);
    SmoothFixed(hi, period);
  }

  /** Every average stays between the least and the greatest true range used so far, whichever
      way it was seeded and whether or not gaps are guarded. */
  lemma {:induction false} WildersBetweenTrueRanges(h: seq<Bar>, s: Settings, lo: real, hi: real)
    requires Usable(s) && Seeded(h, s)
    requires Within(TrueRanges(h, s), lo, hi)
    ensures lo <= Wilders(h, s) <= hi
  {
    hide Smooth, Mean, TrueRange, Within;
    LastWithin(h, s, lo, hi);
    if |h| > SeedBar(s) + 1 {
      WildersBetweenTrueRanges(Front(h), s, lo, hi);
      SmoothBounds(Wilders(Front(h), s), TrueRange(h, s), s.period, lo, hi);
    } else if s.seed == "sma5" {
      MeanBounds(TrueRanges(h, s), s.period, lo, hi);
    }
  }

  lemma {:induction false} LastWithin(h: seq<Bar>, s: Settings, lo: real, hi: real)
    requires Usable(s) && |h| > FirstValid(s.period) && Within(TrueRanges(h, s), lo, hi)
    ensures Within(TrueRanges(Front(h), s), lo, hi) && lo <= TrueRange(h, s) <= hi
  {
    hide TrueRange;
    var ts, front := TrueRanges(h, s), TrueRanges(Front(h), s);
    assert ts == front + [TrueRange(h, s)];
    assert ts[|front|] == TrueRange(h, s);
    forall k | 0 <= k < |front| ensures lo <= front[k] <= hi { assert ts[k] == front[k]; }
  }

  // ---------------------------------------------------------------- signs

  lemma {:induction false} CappedSpanNonNegative(h: seq<Bar>, period: nat)
    requires period >= 1 && |h| > FirstValid(period) && WellFormed(h)
    ensures CappedSpan(h, period) >= 0.0
  {
    hide Sum, Ratio;
    var xs := Spans(h[|h| - period..]);
    SumNonNegative(xs);
    RatioMonotone(0.0, Sum(xs), period as real);
    TimesUnits(period as real);
    RatioUnique(0.0, period as real, 0.0);
  }

  lemma {:induction false} SumNonNegative(xs: seq<real>)
    requires forall k :: 0 <= k < |xs| ==> 0.0 <= xs[k]
    ensures Sum(xs) >= 0.0
  {
    if xs != [] { SumNonNegative(xs[..|xs| - 1]); }
  }

  lemma {:induction false} TrueRangesNonNegative(h: seq<Bar>, s: Settings)
    requires Usable(s) && WellFormed(h)
    ensures forall k :: 0 <= k < |TrueRanges(h, s)| ==> 0.0 <= TrueRanges(h, s)[k]
  {
    if |h| > FirstValid(s.period) {
      CappedSpanNonNegative(h, s.period);
      TrueRangesNonNegative(Front(h), s);
    }
  }

  lemma {:induction false} UpperBound(xs: seq<real>) returns (hi: real)
    ensures forall k :: 0 <= k < |xs| ==> xs[k] <= hi
  {
    if xs == [] { hi := 0.0; } else {
      var rest := UpperBound(xs[..|xs| - 1]);
      hi := Max(rest, xs[|xs| - 1]);
    }
  }

  /** On well-formed bars and a non-negative factor the loss is never negative. */
  lemma {:induction false} LossNonNegative(h: seq<Bar>, s: Settings)
    requires Usable(s) && Seeded(h, s) && WellFormed(h) && s.factor >= 0.0
    ensures Loss(h, s) >= 0.0
  {
    hide TrueRanges, Wilders, WellFormed, Times;
    TrueRangesNonNegative(h, s);
    var hi := UpperBound(TrueRanges(h, s));
    WildersBetweenTrueRanges(h, s, 0.0, hi);
    TimesMonotone(s.factor, 0.0, Wilders(h, s));
    TimesUnits(s.factor);
  }

  /** A long stop never sits above the close, and a short stop never below it. */
  lemma {:induction false} StopOnLosingSide(h: seq<Bar>, s: Settings)
    requires Usable(s) && Seeded(h, s) && WellFormed(h) && s.factor >= 0.0
    ensures var stop := StopAfter(h, s);
      if stop.side.Long? then stop.level <= Last(h).close else Last(h).close <= stop.level
  {
    LossNonNegative(h, s);
  }

  /** Between flips the side is kept, the long stop never falls and the short stop never rises.
      This needs nothing of the bars or of the factor. */
  lemma {:induction false} StopRatchets(h: seq<Bar>, s: Settings)
    requires Usable(s) && |h| > SeedBar(s) + 1
    ensures var before, after := StopAfter(Front(h), s), StopAfter(h, s);
      if after.flip.None? then
        after.side == before.side && after.age == before.age + 1
        && (if before.side.Long? then before.level <= after.level else after.level <= before.level)
      else
        after.side != before.side && after.age == 0
        && (if before.side.Long? then Last(h).close <= before.level else before.level <= Last(h).close)
  {
  }

  // ---------------------------------------------------------------- flips

  /** The flips of a run, oldest first. */
  function Flips(h: seq<Bar>, s: Settings): seq<Flip>
    requires Usable(s)
  {
    if !Seeded(h, s) then []
    else
      Flips(Front(h), s) + (match StopAfter(h, s).flip case Some(f) => [f] case None => [])
  }

  function Other(f: Flip): Flip { if f.Sell? then Buy else Sell }

  ghost predicate AlternatingFrom(flips: seq<Flip>, first: Flip) {
    forall k :: 0 <= k < |flips| ==> flips[k] == if k % 2 == 0 then first else Other(first)
  }

  ghost predicate Alternating(flips: seq<Flip>) {
    AlternatingFrom(flips, Sell)
  }

  /** Flips strictly alternate starting with SELL, and the state is short exactly after an odd
      number of them. */
  lemma {:induction false} FlipsAlternate(h: seq<Bar>, s: Settings)
    requires Usable(s)
    ensures Alternating(Flips(h, s))
    ensures Seeded(h, s) ==> (StopAfter(h, s).side.Short? <==> |Flips(h, s)| % 2 == 1)
  {
    hide Loss, Placed, Tighter;
    if Seeded(h, s) { FlipsAlternate(Front(h), s); }
  }

  /** The age of a state: the bars since its flip, or since the average was seeded. */
  lemma {:induction false} AgeCountsFromFlip(h: seq<Bar>, s: Settings)
    requires Usable(s) && Seeded(h, s)
    ensures var age := StopAfter(h, s).age;
      age < |h| - SeedBar(s)
      && (forall k :: |h| - age < k <= |h| ==> StopAfter(h[..k], s).flip.None?)
      && (|h| - age > SeedBar(s) + 1 ==> StopAfter(h[..|h| - age], s).flip.Some?)
  {
    hide Loss, Placed, Tighter;
    var age := StopAfter(h, s).age;
    assert h[..|h|] == h;
    if |h| > SeedBar(s) + 1 && StopAfter(h, s).flip.None? {
      var f := Front(h);
      AgeCountsFromFlip(f, s);
      assert |f| - StopAfter(f, s).age == |h| - age;
      forall k | |h| - age <= k < |h| ensures f[..k] == h[..k] { }
    }
  }

  // ---------------------------------------------------------------- seeds

  function Power(x: real, n: nat): real { if n == 0 then 1.0 else Times(x, Power(x, n - 1)) }

  /** The share of a difference that survives one smoothing step. */
  function Decay(period: nat): real
    requires period >= 1
  {
    Ratio(period as real - 1.0, period as real)
  }

  lemma {:induction false} DecayIsRest(period: nat)
    requires period >= 1
    ensures Decay(period) == 1.0 - Weight(period)
  {
    hide Ratio;
    var p := period as real;
    RatioTimes(1.0, p);
    var a := Weight(period);
    assert Times(1.0 - a, p) == p - Times(a, p);
    RatioUnique(p - 1.0, p, 1.0 - a);
  }

  lemma {:induction false} SmoothDifference(w: real, w': real, t: real, period: nat)
    requires period >= 1
    ensures Smooth(w, t, period) - Smooth(w', t, period) == Times(Decay(period), w - w')
  {
    hide Smooth, Decay, Weight, Times;
    SmoothWeights(w, t, period);
    SmoothWeights(w', t, period);
    DecayIsRest(period);
    TimesSum(Decay(period), w', w - w');
  }

  lemma {:induction false} ContractStep(w: real, w': real, t: real, period: nat, n: nat, d: real)
    requires period >= 1 && w - w' == Times(Power(Decay(period), n), d)
    ensures Smooth(w, t, period) - Smooth(w', t, period) == Times(Power(Decay(period), n + 1), d)
  {
    hide Smooth, Decay, Times;
    SmoothDifference(w, w', t, period);
    TimesAssociates(Decay(period), Power(Decay(period), n), d);
  }

  lemma {:induction false} TrueRangeIgnoresSeed(h: seq<Bar>, s: Settings, seed: string)
    requires Usable(s) && |h| > FirstValid(s.period)
    ensures TrueRange(h, s.(seed := seed)) == TrueRange(h, s)
  {
    hide CappedSpan, Unguarded;
  }

  ghost function SeedDifference(h: seq<Bar>, s: Settings): real
    requires Usable(s) && s.seed == "sma5" && Seeded(h, s)
  {
    Wilders(h, s) - Wilders(h, s.(seed := "first"))
  }

  /** From the SMA seed bar on, the two seeds' averages approach each other by exactly
      (period - 1) / period per bar. */
  lemma {:induction false} SeedsContract(h: seq<Bar>, s: Settings)
    requires Usable(s) && s.seed == "sma5" && Seeded(h, s)
    ensures SeedDifference(h, s)
         == Times(Power(Decay(s.period), |h| - SeedBar(s) - 1), SeedDifference(h[..SeedBar(s) + 1], s))
  {
    hide Smooth, Mean, TrueRange, Decay, Times;
    if |h| == SeedBar(s) + 1 {
      assert h[..SeedBar(s) + 1] == h;
      TimesUnits(SeedDifference(h, s));
    } else {
      var f := Front(h);
      assert f[..SeedBar(s) + 1] == h[..SeedBar(s) + 1];
      SeedsContract(f, s);
      TrueRangeIgnoresSeed(h, s, "first");
      ContractStep(Wilders(f, s), Wilders(f, s.(seed := "first")), TrueRange(h, s), s.period,
                   |f| - SeedBar(s) - 1, SeedDifference(h[..SeedBar(s) + 1], s));
    }
  }

  // ---------------------------------------------------------------- gap guard

  ghost predicate WideGapAt(h: seq<Bar>, i: nat)
    requires 1 <= i < |h|
  {
    h[i].ts - h[i - 1].ts > GAP_BOUND_MS
  }

  lemma {:induction false} GuardedTrueRangeBelow(h: seq<Bar>, s: Settings)
    requires Usable(s) && |h| > FirstValid(s.period)
    ensures TrueRange(h, s.(guard := true)) <= TrueRange(h, s.(guard := false))
    ensures !WideGapAt(h, |h| - 1) ==> TrueRange(h, s.(guard := true)) == TrueRange(h, s.(guard := false))
  {
    hide CappedSpan;
  }

  lemma {:induction false} GuardedTrueRangesBelow(h: seq<Bar>, s: Settings)
    requires Usable(s)
    ensures var g, u := TrueRanges(h, s.(guard := true)), TrueRanges(h, s.(guard := false));
      |g| == |u| && forall k :: 0 <= k < |g| ==> g[k] <= u[k]
  {
    hide TrueRange;
    if |h| > FirstValid(s.period) {
      GuardedTrueRangeBelow(h, s);
      GuardedTrueRangesBelow(Front(h), s);
    }
  }

  lemma {:induction false} SumMonotone(xs: seq<real>, ys: seq<real>)
    requires |xs| == |ys| && forall k :: 0 <= k < |xs| ==> xs[k] <= ys[k]
    ensures Sum(xs) <= Sum(ys)
  {
    if xs != [] { SumMonotone(xs[..|xs| - 1], ys[..|ys| - 1]); }
  }

  lemma {:induction false} MeanMonotone(xs: seq<real>, ys: seq<real>, period: nat)
    requires period >= 1 && |xs| == |ys| && forall k :: 0 <= k < |xs| ==> xs[k] <= ys[k]
    ensures Mean(xs, period) <= Mean(ys, period)
  {
    hide Sum, Ratio;
    SumMonotone(xs, ys);
    RatioMonotone(Sum(xs), Sum(ys), period as real);
  }

  /** On the same bars the guard never raises the average. */
  lemma {:induction false} GuardNeverRaises(h: seq<Bar>, s: Settings)
    requires Usable(s) && Seeded(h, s)
    ensures Wilders(h, s.(guard := true)) <= Wilders(h, s.(guard := false))
  {
    hide Smooth, Mean, TrueRange;
    var g, u := s.(guard := true), s.(guard := false);
    GuardedTrueRangesBelow(h, s);
    if |h| > SeedBar(s) + 1 {
      GuardNeverRaises(Front(h), s);
      GuardedTrueRangeBelow(h, s);
      SmoothMonotone(Wilders(Front(h), g), TrueRange(h, g), Wilders(Front(h), u), TrueRange(h, u), s.period);
    } else if s.seed != "sma5" {
      GuardedTrueRangeBelow(h, s);
    } else {
      MeanMonotone(TrueRanges(h, g), TrueRanges(h, u), s.period);
    }
  }

  /** Nor, for a non-negative factor, the loss. */
  lemma {:induction false} GuardNeverRaisesLoss(h: seq<Bar>, s: Settings)
    requires Usable(s) && Seeded(h, s) && s.factor >= 0.0
    ensures Loss(h, s.(guard := true)) <= Loss(h, s.(guard := false))
  {
    hide Wilders, Times;
    GuardNeverRaises(h, s);
    TimesMonotone(s.factor, Wilders(h, s.(guard := true)), Wilders(h, s.(guard := false)));
  }

  ghost predicate RangesAgree(h: seq<Bar>, s: Settings)
    requires Usable(s)
  {
    TrueRanges(h, s.(guard := true)) == TrueRanges(h, s.(guard := false))
  }

  lemma {:induction false} LastRangesAgree(h: seq<Bar>, s: Settings)
    requires Usable(s) && |h| > FirstValid(s.period)
    ensures RangesAgree(h, s) <==>
      RangesAgree(Front(h), s) && TrueRange(h, s.(guard := true)) == TrueRange(h, s.(guard := false))
  {
    hide TrueRange;
    var n := |h| - FirstValid(s.period) - 1;
    var gs, us := TrueRanges(h, s.(guard := true)), TrueRanges(h, s.(guard := false));
    assert gs[..n] == TrueRanges(Front(h), s.(guard := true));
    assert us[..n] == TrueRanges(Front(h), s.(guard := false));
    assert gs[n] == TrueRange(h, s.(guard := true)) && us[n] == TrueRange(h, s.(guard := false));
  }

  lemma {:induction false} RangesDecideWilders(h: seq<Bar>, s: Settings)
    requires Usable(s) && Seeded(h, s) && RangesAgree(h, s)
    ensures Wilders(h, s.(guard := true)) == Wilders(h, s.(guard := false))
  {
    hide TrueRange, TrueRanges, Smooth, Mean;
    LastRangesAgree(h, s);
    if |h| > SeedBar(s) + 1 { RangesDecideWilders(Front(h), s); }
  }

  lemma {:induction false} RangesDecideStop(h: seq<Bar>, s: Settings)
    requires Usable(s) && Seeded(h, s) && RangesAgree(h, s)
    ensures Loss(h, s.(guard := true)) == Loss(h, s.(guard := false))
    ensures StopAfter(h, s.(guard := true)) == StopAfter(h, s.(guard := false))
  {
    hide RangesAgree, Wilders, LossOf, Advance, Placed;
    LastRangesAgree(h, s);
    RangesDecideWilders(h, s);
    if |h| > SeedBar(s) + 1 { RangesDecideStop(Front(h), s); }
  }

  /** The guard acts through the true range alone: equal true ranges give equal rows. */
  lemma {:induction false} RangesDecideRow(h: seq<Bar>, s: Settings)
    requires Usable(s) && |h| > 0 && RangesAgree(h, s)
    ensures RowAfter(h, s.(guard := true)) == RowAfter(h, s.(guard := false))
  {
    hide RangesAgree, TrueRange, Wilders, Loss, StopAfter;
    if |h| > FirstValid(s.period) { LastRangesAgree(h, s); }
    if Seeded(h, s) {
      RangesDecideWilders(h, s);
      RangesDecideStop(h, s);
    }
  }

  /** Without a gap above the bound the guard changes nothing. */
  lemma {:induction false} GuardIdleWithoutGaps(h: seq<Bar>, s: Settings)
    requires Usable(s) && |h| > 0
    requires forall i :: 1 <= i < |h| ==> !WideGapAt(h, i)
    ensures RowAfter(h, s.(guard := true)) == RowAfter(h, s.(guard := false))
  {
    hide RowAfter;
    NoGapsRangesAgree(h, s);
    RangesDecideRow(h, s);
  }

  lemma {:induction false} NoGapsRangesAgree(h: seq<Bar>, s: Settings)
    requires Usable(s)
    requires forall i :: 1 <= i < |h| ==> !WideGapAt(h, i)
    ensures RangesAgree(h, s)
  {
    hide TrueRange;
    if |h| > FirstValid(s.period) {
      forall i | 1 <= i < |h| - 1 ensures !WideGapAt(Front(h), i) {
        assert WideGapAt(Front(h), i) == WideGapAt(h, i);
      }
      NoGapsRangesAgree(Front(h), s);
      GuardedTrueRangeBelow(h, s);
    }
  }
}
