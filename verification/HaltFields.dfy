/** The four exit rules in terms of the quotes' own times and prices: which bid each level asks for, where an exit
    is priced, and what a leg without halts reports. */
module HaltFields {
  import opened Wrappers
  import opened Halts
  import opened HaltRule

  const TEN_SECONDS := 10_000_000

  /** The three price levels of the rules. */
  datatype Level = Plus5 | Plus10 | Minus8

  predicate Reached(level: Level, price: real, bid: real) {
    match level
    case Plus5 => bid >= price * 1.05
    case Plus10 => bid >= price * 1.1
    case Minus8 => bid <= price * 0.92
  }

  predicate Sound(q: Quote) { q.bid > 0.0 && q.ask >= q.bid }

  ghost predicate Outside(at: int, halts: seq<Window>) {
    forall w :: w in halts ==> !(w.lastPrint < at < w.reopen)
  }

  /** A tradable quote at the level between the purchase and the endpoint. */
  ghost predicate Touches(q: Quote, leg: Leg, endpoint: int, level: Level, halts: seq<Window>) {
    leg.at <= q.at <= endpoint && Sound(q) && Reached(level, leg.price, q.bid) && Outside(q.at, halts)
  }

  /** A quote at the level during the halt w. */
  predicate Sights(q: Quote, leg: Leg, endpoint: int, level: Level, w: Window) {
    leg.at <= q.at <= endpoint && Sound(q) && Reached(level, leg.price, q.bid) && w.lastPrint < q.at < w.reopen
  }

  /** A tradable quote within ten seconds of the time. */
  ghost predicate Within(q: Quote, at: int, halts: seq<Window>) {
    at <= q.at <= at + TEN_SECONDS && Sound(q) && Outside(q.at, halts)
  }

  function PointOf(points: Points, level: Level): Option<Point> {
    match level case Plus5 => points.target case Plus10 => points.target10 case Minus8 => points.stop
  }

  function MissingOf(points: Points, level: Level): Option<(int, int)> {
    match level
    case Plus5 => points.targetMissing
    case Plus10 => points.target10Missing
    case Minus8 => points.stopMissing
  }

  function ThresholdOf(leg: Leg, level: Level): Threshold {
    match level case Plus5 => Target(leg) case Plus10 => Target10(leg) case Minus8 => Stop(leg)
  }

  // ---------------------------------------------------------------- the points

  /** Where a point at the level comes from: a tradable quote at it, or the first tradable quote within ten seconds of
      the reopen of a halt during which it was seen. */
  ghost predicate ComesFrom(p: Point, quotes: seq<Quote>, leg: Leg, endpoint: int, level: Level, halts: seq<Window>) {
    if p.observedAt.None? then
      exists q :: q in quotes && q.at == p.at && q.bid == p.bid && Touches(q, leg, endpoint, level, halts)
    else
      exists w, seen, q ::
        w in halts && seen in quotes && q in quotes && Carries(p, w, seen, q, leg, endpoint, level, halts)
  }

  ghost predicate Carries(
      p: Point, w: Window, seen: Quote, q: Quote, leg: Leg, endpoint: int, level: Level, halts: seq<Window>)
  {
    && p.observedAt == Some(seen.at) && Sights(seen, leg, endpoint, level, w)
    && q.at == p.at && q.bid == p.bid && Within(q, w.reopen, halts)
  }

  /** An unanswered reopen: the level was seen during the halt, and no tradable quote came within ten seconds. */
  ghost predicate Unquoted(
      m: (int, int), quotes: seq<Quote>, leg: Leg, endpoint: int, level: Level, halts: seq<Window>)
  {
    exists w, seen :: w in halts && seen in quotes && MissedAt(m, w, seen, quotes, leg, endpoint, level, halts)
  }

  ghost predicate MissedAt(m: (int, int), w: Window, seen: Quote, quotes: seq<Quote>, leg: Leg, endpoint: int,
                           level: Level, halts: seq<Window>)
  {
    && m == (w.reopen, seen.at) && Sights(seen, leg, endpoint, level, w)
    && forall q :: q in quotes ==> !Within(q, w.reopen, halts)
  }

  lemma {:induction false} SameTests(leg: Leg, endpoint: int, level: Level, halts: seq<Window>, q: Quote)
    ensures Touches(q, leg, endpoint, level, halts) <==>
      leg.at <= q.at <= endpoint && Tradable(q, halts) && ThresholdOf(leg, level).Meets(q.bid)
    ensures forall w: Window ::
      Sights(q, leg, endpoint, level, w) <==> SeenHalted(q, leg, endpoint, ThresholdOf(leg, level), w)
    ensures forall w: Window :: Within(q, w.reopen, halts) <==> Reopens(q, w, halts)
    ensures forall at :: Within(q, at, halts) <==> at <= q.at <= at + FRESHNESS && Tradable(q, halts)
  {
  }

  lemma {:induction false} DeferredInFields(
      quotes: seq<Quote>, leg: Leg, endpoint: int, level: Level, halts: seq<Window>, k: nat)
    requires k <= |halts|
    ensures var d := DeferredOver(quotes, leg, endpoint, ThresholdOf(leg, level), halts, k);
      && (d.point.Some? ==>
           d.point.value.observedAt.Some? && ComesFrom(d.point.value, quotes, leg, endpoint, level, halts))
      && (d.missing.Some? ==> Unquoted(d.missing.value, quotes, leg, endpoint, level, halts))
      && (d == Deferred(None, None) <==>
           forall j, q :: 0 <= j < k && q in quotes ==> !Sights(q, leg, endpoint, level, halts[j]))
  {
    hide Halted, SightIn, ComesFrom, Unquoted, Sights, ThresholdOf, Before;
    if k > 0 {
      DeferredInFields(quotes, leg, endpoint, level, halts, k - 1);
      SightInFields(quotes, leg, endpoint, level, halts, halts[k - 1]);
    }
  }

  lemma {:induction false} SightInFields(
      quotes: seq<Quote>, leg: Leg, endpoint: int, level: Level, halts: seq<Window>, w: Window)
    requires w in halts
    ensures var s := SightIn(quotes, leg, endpoint, ThresholdOf(leg, level), halts, w);
      && (s.Unseen? <==> forall q :: q in quotes ==> !Sights(q, leg, endpoint, level, w))
      && (s.Missing? ==> Unquoted((s.reopen, s.observed), quotes, leg, endpoint, level, halts))
      && (s.Reopened? ==> s.point.observedAt.Some? && ComesFrom(s.point, quotes, leg, endpoint, level, halts))
  {
    hide Halted, ThresholdOf, SeenHalted, Reopens, Sights, Within;
    var t := ThresholdOf(leg, level);
    forall q
      ensures Sights(q, leg, endpoint, level, w) <==> SeenHalted(q, leg, endpoint, t, w)
      ensures Within(q, w.reopen, halts) <==> Reopens(q, w, halts)
    {
      SameTests(leg, endpoint, level, halts, q);
    }
    var seen := First(quotes, q => SeenHalted(q, leg, endpoint, t, w));
    if seen.Some? {
      var reopened := First(quotes, q => Reopens(q, w, halts));
      if reopened.Some? {
        assert Carries(Point(reopened.value.at, reopened.value.bid, Some(seen.value.at)), w, seen.value, reopened.value,
                       leg, endpoint, level, halts);
      } else {
        assert MissedAt((w.reopen, seen.value.at), w, seen.value, quotes, leg, endpoint, level, halts);
      }
    }
  }

  /** A valid quote at the level between the purchase and the endpoint, halted or not. */
  predicate Hits(q: Quote, leg: Leg, endpoint: int, level: Level) {
    leg.at <= q.at <= endpoint && Sound(q) && Reached(level, leg.price, q.bid)
  }

  /** Each slot of the points holds the exit at its own level: +5%, +10% or -8%. It has a source at that level, is not
      after any tradable quote at it, and is empty, with no unanswered reopen, exactly when no quote hits the level. */
  lemma {:induction false} PointInFields(quotes: seq<Quote>, leg: Leg, endpoint: int, level: Level, halts: seq<Window>)
    ensures var points := QuotePoints(quotes, leg, endpoint, halts);
      var p, m := PointOf(points, level), MissingOf(points, level);
      && (p.Some? ==> ComesFrom(p.value, quotes, leg, endpoint, level, halts))
      && (m.Some? ==> Unquoted(m.value, quotes, leg, endpoint, level, halts))
      && (p == None && m == None <==> forall q :: q in quotes ==> !Hits(q, leg, endpoint, level))
      && (InOrder(quotes) ==> forall q :: q in quotes && Touches(q, leg, endpoint, level, halts) ==>
           p.Some? && (p.value.at < q.at || (p.value.at == q.at && p.value.Observed() <= q.at)))
  {
    hide First, Last, EarliestTouch, Unanswered, ComesFrom, Unquoted, Touches, Hits;
    EarliestInFields(quotes, leg, endpoint, level, halts);
  }

  lemma {:induction false} EarliestInFields(
      quotes: seq<Quote>, leg: Leg, endpoint: int, level: Level, halts: seq<Window>)
    ensures var t := ThresholdOf(leg, level);
      var p, m := EarliestTouch(quotes, leg, endpoint, t, halts), Unanswered(quotes, leg, endpoint, t, halts);
      && (p.Some? ==> ComesFrom(p.value, quotes, leg, endpoint, level, halts))
      && (m.Some? ==> Unquoted(m.value, quotes, leg, endpoint, level, halts))
      && (p == None && m == None <==> forall q :: q in quotes ==> !Hits(q, leg, endpoint, level))
      && (InOrder(quotes) ==> forall q :: q in quotes && Touches(q, leg, endpoint, level, halts) ==>
           p.Some? && (p.value.at < q.at || (p.value.at == q.at && p.value.Observed() <= q.at)))
  {
    hide DeferredOver, Touch, ComesFrom, Unquoted, Touches, Hits, ThresholdOf, Sights;
    TouchInFields(quotes, leg, endpoint, level, halts);
    DeferredInFields(quotes, leg, endpoint, level, halts, |halts|);
    forall q | q in quotes
      ensures Hits(q, leg, endpoint, level) <==>
        || Touches(q, leg, endpoint, level, halts)
        || exists j :: 0 <= j < |halts| && Sights(q, leg, endpoint, level, halts[j])
    {
      HitIsTouchOrSight(q, leg, endpoint, level, halts);
    }
  }

  lemma {:induction false} HitIsTouchOrSight(q: Quote, leg: Leg, endpoint: int, level: Level, halts: seq<Window>)
    ensures Hits(q, leg, endpoint, level) <==>
      || Touches(q, leg, endpoint, level, halts)
      || exists j :: 0 <= j < |halts| && Sights(q, leg, endpoint, level, halts[j])
  {
    hide Reached;
    if !Outside(q.at, halts) {
      var w :| w in halts && w.lastPrint < q.at < w.reopen;
      var j :| 0 <= j < |halts| && halts[j] == w;
      assert Hits(q, leg, endpoint, level) ==> Sights(q, leg, endpoint, level, halts[j]);
    }
  }

  lemma {:induction false} TouchInFields(quotes: seq<Quote>, leg: Leg, endpoint: int, level: Level, halts: seq<Window>)
    ensures var p := Touch(quotes, leg, endpoint, ThresholdOf(leg, level), halts);
      && (p.Some? ==> p.value.observedAt.None? && ComesFrom(p.value, quotes, leg, endpoint, level, halts))
      && (p.None? <==> forall q :: q in quotes ==> !Touches(q, leg, endpoint, level, halts))
      && (InOrder(quotes) && p.Some? ==>
           forall q :: q in quotes && Touches(q, leg, endpoint, level, halts) ==> p.value.at <= q.at)
  {
    hide Tradable, ThresholdOf, Touches;
    forall q
      ensures Touches(q, leg, endpoint, level, halts) <==>
        leg.at <= q.at <= endpoint && Tradable(q, halts) && ThresholdOf(leg, level).Meets(q.bid)
    {
      SameTests(leg, endpoint, level, halts, q);
    }
  }

  // ---------------------------------------------------------------- the exits

  /** The price of an exit is the quote's bid at its time, and the return is the bid over the price less one, in
      percent. */
  predicate PricedAt(r: LegResult, leg: Leg, at: int, bid: real) {
    && r.triggerAt == Some(at) && r.exitBid == Some(bid) && r.returnPct.Some?
    && (r.returnPct.value / 100.0 + 1.0) * leg.price == bid
  }

  lemma {:induction false} PricedInFields(leg: Leg, outcome: Outcome, at: int, bid: real)
    requires leg.price > 0.0
    ensures PricedAt(Priced(leg, outcome, at, bid), leg, at, bid) && Priced(leg, outcome, at, bid).outcome == outcome
  {
    assert bid / leg.price * leg.price == bid;
  }

  /** The exit is the point of that level. */
  ghost predicate ExitsAt(
      r: LegResult, quotes: seq<Quote>, leg: Leg, endpoint: int, level: Level, halts: seq<Window>)
  {
    exists p :: ComesFrom(p, quotes, leg, endpoint, level, halts) && PricedAt(r, leg, p.at, p.bid)
  }

  /** The quote at the boundary: after a SELL the first tradable one within ten seconds, otherwise the last one in the
      ten seconds before the cutoff. */
  ghost predicate BoundaryQuote(q: Quote, quotes: seq<Quote>, sellAt: Option<int>, cutoff: int, halts: seq<Window>) {
    if sellAt.Some? then
      && q in quotes && Within(q, sellAt.value, halts)
      && (InOrder(quotes) ==> forall x :: x in quotes && Within(x, sellAt.value, halts) ==> q.at <= x.at)
    else
      && q in quotes && Within(q, cutoff - TEN_SECONDS, halts)
      && (InOrder(quotes) ==> forall x :: x in quotes && Within(x, cutoff - TEN_SECONDS, halts) ==> x.at <= q.at)
  }

  ghost predicate ExitsAtBoundary(
      r: LegResult, quotes: seq<Quote>, leg: Leg, sellAt: Option<int>, cutoff: int, halts: seq<Window>)
  {
    exists q :: BoundaryQuote(q, quotes, sellAt, cutoff, halts) && PricedAt(r, leg, q.at, q.bid)
  }

  /** What the exit of rule k is priced at: the competing exits at +5% or -8%, the yardsticks at +5% and at +10%, and
      every rule at the boundary. */
  ghost predicate ExitShape(r: LegResult, k: nat, quotes: seq<Quote>, leg: Leg, sellAt: Option<int>, cutoff: int,
                            halts: seq<Window>)
  {
    var endpoint := if sellAt.Some? then sellAt.value else cutoff;
    match r.outcome
    case TargetExit => k <= 1 && ExitsAt(r, quotes, leg, endpoint, Plus5, halts)
    case Target10Exit => k == 2 && ExitsAt(r, quotes, leg, endpoint, Plus10, halts)
    case StopExit => k == 0 && ExitsAt(r, quotes, leg, endpoint, Minus8, halts)
    case FlipExit => sellAt.Some? && ExitsAtBoundary(r, quotes, leg, sellAt, cutoff, halts)
    case StillOpen => sellAt.None? && ExitsAtBoundary(r, quotes, leg, sellAt, cutoff, halts)
    case Unanswerable => r.exitBid.None? && r.returnPct.None?
  }

  lemma {:induction false} BoundaryInFields(
      quotes: seq<Quote>, leg: Leg, sellAt: Option<int>, cutoff: int, halts: seq<Window>)
    ensures var points := QuotePoints(quotes, leg, MeasurementEnd(sellAt, cutoff), halts);
      var q := if sellAt.Some? then points.after else points.before;
      && (q.Some? ==> BoundaryQuote(q.value, quotes, sellAt, cutoff, halts))
      && (q.None? ==> forall x :: x in quotes ==>
           !Within(x, if sellAt.Some? then sellAt.value else cutoff - TEN_SECONDS, halts))
      && (points.first.Some? <==> exists x :: x in quotes && Within(x, leg.at, halts))
  {
    hide Tradable, EarliestTouch, Unanswered;
    forall q
      ensures forall at :: Within(q, at, halts) <==> at <= q.at <= at + FRESHNESS && Tradable(q, halts)
    {
      SameTests(leg, cutoff, Plus5, halts, q);
    }
    hide Within;
  }

  lemma {:induction false} AtBoundaryInFields(quotes: seq<Quote>, leg: Leg, sellAt: Option<int>, cutoff: int,
                                              halts: seq<Window>, k: nat, unpriced: int)
    requires leg.price > 0.0
    ensures var points := QuotePoints(quotes, leg, MeasurementEnd(sellAt, cutoff), halts);
      ExitShape(AtBoundary(leg, sellAt, points, unpriced), k, quotes, leg, sellAt, cutoff, halts)
  {
    hide QuotePoints, BoundaryQuote, PricedAt;
    BoundaryInFields(quotes, leg, sellAt, cutoff, halts);
    var points := QuotePoints(quotes, leg, MeasurementEnd(sellAt, cutoff), halts);
    var q := if sellAt.Some? then points.after else points.before;
    if q.Some? { PricedInFields(leg, if sellAt.Some? then FlipExit else StillOpen, q.value.at, q.value.bid); }
  }

  lemma {:induction false} LevelExit(quotes: seq<Quote>, leg: Leg, endpoint: int, level: Level, halts: seq<Window>,
                                     outcome: Outcome)
    requires leg.price > 0.0
    ensures var p := PointOf(QuotePoints(quotes, leg, endpoint, halts), level);
      p.Some? ==> ExitsAt(Priced(leg, outcome, p.value.at, p.value.bid), quotes, leg, endpoint, level, halts)
  {
    hide QuotePoints, ComesFrom, PricedAt;
    PointInFields(quotes, leg, endpoint, level, halts);
    var p := PointOf(QuotePoints(quotes, leg, endpoint, halts), level);
    if p.Some? { PricedInFields(leg, outcome, p.value.at, p.value.bid); }
  }

  /** Every exit of the four rules has the source and the price of its own outcome, and without a tradable quote within
      ten seconds of the purchase there is none. */
  lemma {:induction false} ExitInFields(
      quotes: seq<Quote>, leg: Leg, halts: seq<Window>, sellAt: Option<int>, cutoff: int, k: nat)
    requires leg.price > 0.0 && k < 4
    ensures var r := Exits(leg, sellAt, cutoff, QuotePoints(quotes, leg, MeasurementEnd(sellAt, cutoff), halts))[k];
      && ExitShape(r, k, quotes, leg, sellAt, cutoff, halts)
      && ((forall q :: q in quotes ==> !Within(q, leg.at, halts)) ==> r.outcome == Unanswerable)
  {
    var endpoint := MeasurementEnd(sellAt, cutoff);
    var points := QuotePoints(quotes, leg, endpoint, halts);
    hide QuotePoints, ExitsAt, ExitsAtBoundary, Soonest, Tied, Within;
    BoundaryInFields(quotes, leg, sellAt, cutoff, halts);
    LevelExit(quotes, leg, endpoint, Plus5, halts, TargetExit);
    LevelExit(quotes, leg, endpoint, Plus10, halts, Target10Exit);
    LevelExit(quotes, leg, endpoint, Minus8, halts, StopExit);
    AtBoundaryInFields(quotes, leg, sellAt, cutoff, halts, k, Boundary(sellAt, cutoff).at);
    if k == 0 && points.first.Some? && !Tied(points) {
      var c := Soonest(Candidates(points, sellAt, cutoff));
      WhichCandidate(points, sellAt, cutoff, c);
      AtBoundaryInFields(quotes, leg, sellAt, cutoff, halts, k, c.at);
    }
  }

  // ---------------------------------------------------------------- without halts

  /** The first quote listed that hits the level. */
  predicate FirstHit(quotes: seq<Quote>, leg: Leg, endpoint: int, level: Level, i: nat) {
    && i < |quotes| && Hits(quotes[i], leg, endpoint, level)
    && forall j :: 0 <= j < i ==> !Hits(quotes[j], leg, endpoint, level)
  }

  ghost predicate NeverHit(quotes: seq<Quote>, leg: Leg, endpoint: int, level: Level) {
    forall q :: q in quotes ==> !Hits(q, leg, endpoint, level)
  }

  lemma {:induction false} FirstIsAt(quotes: seq<Quote>, wanted: Quote -> bool, i: nat)
    requires i < |quotes| && wanted(quotes[i]) && forall j :: 0 <= j < i ==> !wanted(quotes[j])
    ensures First(quotes, wanted) == Some(quotes[i])
  {
    if i > 0 {
      assert quotes[1..][i - 1] == quotes[i];
      assert forall j :: 0 <= j < i - 1 ==> quotes[1..][j] == quotes[j + 1];
      FirstIsAt(quotes[1..], wanted, i - 1);
    }
  }

  lemma {:induction false} NoHaltPoint(quotes: seq<Quote>, leg: Leg, endpoint: int, level: Level)
    ensures var points := QuotePoints(quotes, leg, endpoint, []);
      && MissingOf(points, level) == None
      && (NeverHit(quotes, leg, endpoint, level) <==> PointOf(points, level) == None)
      && forall i: nat :: FirstHit(quotes, leg, endpoint, level, i) ==>
           PointOf(points, level) == Some(Point(quotes[i].at, quotes[i].bid, None))
  {
    hide First, Last, Touch, Tradable, Hits;
    assert DeferredOver(quotes, leg, endpoint, ThresholdOf(leg, level), [], 0) == Deferred(None, None);
    NoHaltTouch(quotes, leg, endpoint, level);
  }

  lemma {:induction false} NoHaltTouch(quotes: seq<Quote>, leg: Leg, endpoint: int, level: Level)
    ensures var p := Touch(quotes, leg, endpoint, ThresholdOf(leg, level), []);
      && (NeverHit(quotes, leg, endpoint, level) <==> p == None)
      && forall i: nat :: FirstHit(quotes, leg, endpoint, level, i) ==>
           p == Some(Point(quotes[i].at, quotes[i].bid, None))
  {
    hide Tradable, ThresholdOf, Hits;
    var t := ThresholdOf(leg, level);
    forall q
      ensures Hits(q, leg, endpoint, level) <==> leg.at <= q.at <= endpoint && Tradable(q, []) && t.Meets(q.bid)
    {
      HitWithoutHalts(q, leg, endpoint, level);
    }
    forall i: nat | FirstHit(quotes, leg, endpoint, level, i)
      ensures Touch(quotes, leg, endpoint, t, []) == Some(Point(quotes[i].at, quotes[i].bid, None))
    {
      FirstIsAt(quotes, (q: Quote) => leg.at <= q.at <= endpoint && Tradable(q, []) && t.Meets(q.bid), i);
    }
  }

  lemma {:induction false} HitWithoutHalts(q: Quote, leg: Leg, endpoint: int, level: Level)
    ensures Hits(q, leg, endpoint, level) <==>
      leg.at <= q.at <= endpoint && Tradable(q, []) && ThresholdOf(leg, level).Meets(q.bid)
  {
    SameTests(leg, endpoint, level, [], q);
  }

  /** The answer at the boundary: its quote, or none. */
  ghost predicate BoundaryAnswer(
      r: LegResult, quotes: seq<Quote>, leg: Leg, sellAt: Option<int>, cutoff: int, halts: seq<Window>)
  {
    if exists q :: q in quotes && Within(q, if sellAt.Some? then sellAt.value else cutoff - TEN_SECONDS, halts) then
      && r.outcome == (if sellAt.Some? then FlipExit else StillOpen)
      && ExitsAtBoundary(r, quotes, leg, sellAt, cutoff, halts)
    else r.outcome == Unanswerable
  }

  lemma {:induction false} BoundaryAnswers(
      quotes: seq<Quote>, leg: Leg, sellAt: Option<int>, cutoff: int, halts: seq<Window>, unpriced: int)
    requires leg.price > 0.0
    ensures var points := QuotePoints(quotes, leg, MeasurementEnd(sellAt, cutoff), halts);
      BoundaryAnswer(AtBoundary(leg, sellAt, points, unpriced), quotes, leg, sellAt, cutoff, halts)
  {
    hide QuotePoints, BoundaryQuote, PricedAt, Within;
    BoundaryInFields(quotes, leg, sellAt, cutoff, halts);
    var points := QuotePoints(quotes, leg, MeasurementEnd(sellAt, cutoff), halts);
    var q := if sellAt.Some? then points.after else points.before;
    if q.Some? {
      PricedInFields(leg, if sellAt.Some? then FlipExit else StillOpen, q.value.at, q.value.bid);
      QuoteIsWithin(q.value, quotes, sellAt, cutoff, halts);
    }
  }

  lemma {:induction false} QuoteIsWithin(
      q: Quote, quotes: seq<Quote>, sellAt: Option<int>, cutoff: int, halts: seq<Window>)
    requires BoundaryQuote(q, quotes, sellAt, cutoff, halts)
    ensures q in quotes && Within(q, if sellAt.Some? then sellAt.value else cutoff - TEN_SECONDS, halts)
  {
  }

  /** A yardstick without halts: the first quote that hits its level, or the boundary. */
  lemma {:induction false} YardstickWithoutHalts(
      quotes: seq<Quote>, leg: Leg, sellAt: Option<int>, cutoff: int, k: nat, level: Level, i: nat)
    requires leg.price > 0.0 && ((k == 1 && level == Plus5) || (k == 2 && level == Plus10))
    requires exists q :: q in quotes && Within(q, leg.at, [])
    ensures var endpoint := if sellAt.Some? then sellAt.value else cutoff;
      var r := Exits(leg, sellAt, cutoff, QuotePoints(quotes, leg, MeasurementEnd(sellAt, cutoff), []))[k];
      && (FirstHit(quotes, leg, endpoint, level, i) ==>
           && r.outcome == (if k == 1 then TargetExit else Target10Exit)
           && PricedAt(r, leg, quotes[i].at, quotes[i].bid))
      && (NeverHit(quotes, leg, endpoint, level) ==> BoundaryAnswer(r, quotes, leg, sellAt, cutoff, []))
  {
    hide QuotePoints, ChooseOutcome, FirstHit, NeverHit, BoundaryAnswer, Within;
    var endpoint := MeasurementEnd(sellAt, cutoff);
    BoundaryInFields(quotes, leg, sellAt, cutoff, []);
    NoHaltPoint(quotes, leg, endpoint, level);
    BoundaryAnswers(quotes, leg, sellAt, cutoff, [], Boundary(sellAt, cutoff).at);
    if FirstHit(quotes, leg, endpoint, level, i) {
      HitIsListed(quotes, leg, endpoint, level, i);
      PricedInFields(leg, if k == 1 then TargetExit else Target10Exit, quotes[i].at, quotes[i].bid);
    }
  }

  lemma {:induction false} HitIsListed(quotes: seq<Quote>, leg: Leg, endpoint: int, level: Level, i: nat)
    requires FirstHit(quotes, leg, endpoint, level, i)
    ensures i < |quotes| && leg.at <= quotes[i].at <= endpoint
  {
  }

  /** The competing exits without halts: of the first quote at +5% and the first at -8% the earlier one, no answer when
      they have the same time, and the boundary when neither level was hit. */
  lemma {:induction false} CompetingWithoutHalts(
      quotes: seq<Quote>, leg: Leg, sellAt: Option<int>, cutoff: int, i: nat, j: nat)
    requires leg.price > 0.0 && exists q :: q in quotes && Within(q, leg.at, [])
    requires var endpoint := if sellAt.Some? then sellAt.value else cutoff;
      && (FirstHit(quotes, leg, endpoint, Plus5, i) || NeverHit(quotes, leg, endpoint, Plus5))
      && (FirstHit(quotes, leg, endpoint, Minus8, j) || NeverHit(quotes, leg, endpoint, Minus8))
    ensures var endpoint := if sellAt.Some? then sellAt.value else cutoff;
      var r := Exits(leg, sellAt, cutoff, QuotePoints(quotes, leg, MeasurementEnd(sellAt, cutoff), []))[0];
      var up, down := FirstHit(quotes, leg, endpoint, Plus5, i), FirstHit(quotes, leg, endpoint, Minus8, j);
      if up && down && quotes[i].at == quotes[j].at then r.outcome == Unanswerable
      else if up && (!down || quotes[i].at < quotes[j].at) then
        r.outcome == TargetExit && PricedAt(r, leg, quotes[i].at, quotes[i].bid)
      else if down then r.outcome == StopExit && PricedAt(r, leg, quotes[j].at, quotes[j].bid)
      else BoundaryAnswer(r, quotes, leg, sellAt, cutoff, [])
  {
    hide QuotePoints, FirstHit, NeverHit, BoundaryAnswer, Within, PricedAt;
    var endpoint := MeasurementEnd(sellAt, cutoff);
    var points := QuotePoints(quotes, leg, endpoint, []);
    var up, down := FirstHit(quotes, leg, endpoint, Plus5, i), FirstHit(quotes, leg, endpoint, Minus8, j);
    BoundaryInFields(quotes, leg, sellAt, cutoff, []);
    NoHaltPoint(quotes, leg, endpoint, Plus5);
    NoHaltPoint(quotes, leg, endpoint, Minus8);
    if up {
      HitIsListed(quotes, leg, endpoint, Plus5, i);
      PricedInFields(leg, TargetExit, quotes[i].at, quotes[i].bid);
    }
    if down {
      HitIsListed(quotes, leg, endpoint, Minus8, j);
      PricedInFields(leg, StopExit, quotes[j].at, quotes[j].bid);
    }
    Competing(leg, sellAt, cutoff, points);
    BoundaryAnswers(quotes, leg, sellAt, cutoff, [], Boundary(sellAt, cutoff).at);
  }

  /** The choice between points that were not carried over a halt, none after the boundary. */
  lemma {:induction false} Competing(leg: Leg, sellAt: Option<int>, cutoff: int, points: Points)
    requires leg.price > 0.0 && points.first.Some? && points.targetMissing.None? && points.stopMissing.None?
    requires points.target.Some? ==>
      points.target.value.observedAt.None? && points.target.value.at <= MeasurementEnd(sellAt, cutoff)
    requires points.stop.Some? ==>
      points.stop.value.observedAt.None? && points.stop.value.at <= MeasurementEnd(sellAt, cutoff)
    ensures var r, t, s := ChooseOutcome(leg, sellAt, cutoff, points), points.target, points.stop;
      r == if t.Some? && s.Some? && t.value.at == s.value.at then NoAnswer(None)
           else if t.Some? && (s.None? || t.value.at < s.value.at) then Priced(leg, TargetExit, t.value.at, t.value.bid)
           else if s.Some? then Priced(leg, StopExit, s.value.at, s.value.bid)
           else AtBoundary(leg, sellAt, points, Boundary(sellAt, cutoff).at)
  {
    hide Candidates, Soonest;
    TargetsAreCandidates(points, sellAt, cutoff);
    StopsAreCandidates(points, sellAt, cutoff);
    if !Tied(points) {
      WhichCandidate(points, sellAt, cutoff, Soonest(Candidates(points, sellAt, cutoff)));
    }
  }

  /** The boundary rule, halts or not: the boundary's quote whenever some quote came within ten seconds of the
      purchase. */
  lemma {:induction false} BoundaryRule(
      quotes: seq<Quote>, leg: Leg, halts: seq<Window>, sellAt: Option<int>, cutoff: int)
    requires leg.price > 0.0 && exists q :: q in quotes && Within(q, leg.at, halts)
    ensures var r := Exits(leg, sellAt, cutoff, QuotePoints(quotes, leg, MeasurementEnd(sellAt, cutoff), halts))[3];
      BoundaryAnswer(r, quotes, leg, sellAt, cutoff, halts)
  {
    hide QuotePoints, BoundaryAnswer, Within, ChooseOutcome;
    BoundaryInFields(quotes, leg, sellAt, cutoff, halts);
    BoundaryAnswers(quotes, leg, sellAt, cutoff, halts, Boundary(sellAt, cutoff).at);
  }
}
