/** The halt-aware exit rule of scripts/actual_resting_operator_rule.py: quote searches that skip halted
    quotes, thresholds seen while halted carried to the reopen, and the choice between the exits. */
module HaltRule {
  import opened Wrappers
  import opened Halts

  const FRESHNESS := 10 * SECOND

  datatype Quote = Quote(at: int, bid: real, ask: real)

  /** `observedAt` is set when the threshold was seen during a halt and executed after it. */
  datatype Point = Point(at: int, bid: real, observedAt: Option<int>) {
    function Observed(): int { if observedAt.Some? then observedAt.value else at }
  }

  datatype Leg = Leg(at: int, price: real)

  predicate ValidQuote(q: Quote) { q.bid > 0.0 && q.ask >= q.bid }

  predicate Tradable(q: Quote, halts: seq<Window>) { ValidQuote(q) && !Halted(q.at, halts) }

  ghost predicate InOrder(quotes: seq<Quote>) {
    forall i, j :: 0 <= i < j < |quotes| ==> quotes[i].at <= quotes[j].at
  }

  // ---------------------------------------------------------------- searches

  /** ORDER BY event_ts, id LIMIT 1. */
  function First(quotes: seq<Quote>, wanted: Quote -> bool): (r: Option<Quote>)
    ensures r.Some? ==> r.value in quotes && wanted(r.value)
    ensures r.None? ==> forall q :: q in quotes ==> !wanted(q)
    ensures r.Some? && InOrder(quotes) ==> forall q :: q in quotes && q.at < r.value.at ==> !wanted(q)
  {
    if quotes == [] then None
    else if wanted(quotes[0]) then Some(quotes[0])
    else First(quotes[1..], wanted)
  }

  /** ORDER BY event_ts DESC, id DESC LIMIT 1. */
  function Last(quotes: seq<Quote>, wanted: Quote -> bool): (r: Option<Quote>)
    ensures r.Some? ==> r.value in quotes && wanted(r.value)
    ensures r.None? ==> forall q :: q in quotes ==> !wanted(q)
    ensures r.Some? && InOrder(quotes) ==> forall q :: q in quotes && q.at > r.value.at ==> !wanted(q)
  {
    if quotes == [] then None
    else if wanted(quotes[|quotes| - 1]) then Some(quotes[|quotes| - 1])
    else Last(quotes[..|quotes| - 1], wanted)
  }

  datatype Threshold = AtLeast(price: real) | AtMost(price: real) {
    predicate Meets(bid: real) { match this case AtLeast(p) => bid >= p case AtMost(p) => bid <= p }
  }

  /** A valid quote at the threshold while w lasts, no later than the endpoint. */
  predicate SeenHalted(q: Quote, leg: Leg, endpoint: int, t: Threshold, w: Window) {
    leg.at <= q.at <= endpoint && Inside(q.at, w) && ValidQuote(q) && t.Meets(q.bid)
  }

  predicate Reopens(q: Quote, w: Window, halts: seq<Window>) {
    w.reopen <= q.at <= w.reopen + FRESHNESS && Tradable(q, halts)
  }

  /** What one halt makes of the threshold. */
  datatype Sight = Unseen | Missing(reopen: int, observed: int) | Reopened(point: Point)

  function SightIn(quotes: seq<Quote>, leg: Leg, endpoint: int, t: Threshold, halts: seq<Window>, w: Window): (r: Sight)
    ensures r.Unseen? <==> forall q :: q in quotes ==> !SeenHalted(q, leg, endpoint, t, w)
    ensures r.Missing? ==>
      r.reopen == w.reopen && r.observed < w.reopen && forall q :: q in quotes ==> !Reopens(q, w, halts)
    ensures r.Reopened? ==> r.point.observedAt.Some? && r.point.observedAt.value < w.reopen
    ensures r.Reopened? ==>
      exists q :: q in quotes && Reopens(q, w, halts) && q.at == r.point.at && q.bid == r.point.bid
    ensures r.Reopened? && InOrder(quotes) ==> forall q :: q in quotes && Reopens(q, w, halts) ==> r.point.at <= q.at
  {
    match First(quotes, q => SeenHalted(q, leg, endpoint, t, w))
    case None => Unseen
    case Some(seen) =>
      match First(quotes, q => Reopens(q, w, halts))
      case None => Missing(w.reopen, seen.at)
      case Some(q) => Reopened(Point(q.at, q.bid, Some(seen.at)))
  }

  predicate Before(at: int, observed: int, otherAt: int, otherObserved: int) {
    at < otherAt || (at == otherAt && observed < otherObserved)
  }

  datatype Deferred = Deferred(point: Option<Point>, missing: Option<(int, int)>)

  /** The earliest reopened point and the earliest unanswered reopen over the first k halts. */
  function DeferredOver(quotes: seq<Quote>, leg: Leg, endpoint: int, t: Threshold, halts: seq<Window>, k: nat): Deferred
    requires k <= |halts|
  {
    if k == 0 then Deferred(None, None)
    else Join(DeferredOver(quotes, leg, endpoint, t, halts, k - 1),
      SightIn(quotes, leg, endpoint, t, halts, halts[k - 1]))
  }

  function Join(d: Deferred, s: Sight): Deferred {
    match s
    case Unseen => d
    case Missing(reopen, observed) => d.(missing := EarlierPair(d.missing, (reopen, observed)))
    case Reopened(p) => d.(point := Earlier(d.point, Some(p)))
  }

  function EarlierPair(m: Option<(int, int)>, n: (int, int)): Option<(int, int)> {
    if m.Some? && !Before(n.0, n.1, m.value.0, m.value.1) then m else Some(n)
  }

  /** min by (at, observed), the first of equals. */
  function Earlier(p: Option<Point>, q: Option<Point>): (r: Option<Point>)
    ensures r.None? <==> p.None? && q.None?
    ensures r == p || r == q
    ensures p.Some? ==> !Before(p.value.at, p.value.Observed(), r.value.at, r.value.Observed())
    ensures q.Some? ==> !Before(q.value.at, q.value.Observed(), r.value.at, r.value.Observed())
  {
    if p.None? then q
    else if q.None? then p
    else if Before(q.value.at, q.value.Observed(), p.value.at, p.value.Observed()) then q
    else p
  }

  /** Candidates and unanswered reopens are collected halt by halt, then the earliest of each is taken. */
  method DeferredThreshold(quotes: seq<Quote>, leg: Leg, endpoint: int, t: Threshold, halts: seq<Window>)
    returns (point: Option<Point>, missing: Option<(int, int)>)
    ensures Deferred(point, missing) == DeferredOver(quotes, leg, endpoint, t, halts, |halts|)
  {
    var candidates: seq<Point> := [];
    var unanswered: seq<(int, int)> := [];
    for k := 0 to |halts|
      invariant DeferredOver(quotes, leg, endpoint, t, halts, k) ==
        Deferred(EarliestPoint(candidates), EarliestPair(unanswered))
    {
      var w := halts[k];
      var observed := First(quotes, q => SeenHalted(q, leg, endpoint, t, w));
      if observed.None? { continue; }
      var reopened := First(quotes, q => Reopens(q, w, halts));
      if reopened.None? {
        unanswered := unanswered + [(w.reopen, observed.value.at)];
        continue;
      }
      candidates := candidates + [Point(reopened.value.at, reopened.value.bid, Some(observed.value.at))];
    }
    point, missing := EarliestPoint(candidates), EarliestPair(unanswered);
  }

  function EarliestPoint(ps: seq<Point>): Option<Point> {
    if ps == [] then None else Earlier(EarliestPoint(ps[..|ps| - 1]), Some(ps[|ps| - 1]))
  }

  function EarliestPair(ps: seq<(int, int)>): Option<(int, int)> {
    if ps == [] then None else EarlierPair(EarliestPair(ps[..|ps| - 1]), ps[|ps| - 1])
  }

  // ---------------------------------------------------------------- the points of one leg

  datatype Points = Points(
    first: Option<Quote>, target: Option<Point>, stop: Option<Point>, target10: Option<Point>,
    targetMissing: Option<(int, int)>, stopMissing: Option<(int, int)>, target10Missing: Option<(int, int)>,
    after: Option<Quote>, before: Option<Quote>)

  function Target(leg: Leg): Threshold { AtLeast(leg.price * 1.05) }

  function Target10(leg: Leg): Threshold { AtLeast(leg.price * 1.1) }

  function Stop(leg: Leg): Threshold { AtMost(leg.price * 0.92) }

  function Touch(quotes: seq<Quote>, leg: Leg, endpoint: int, t: Threshold, halts: seq<Window>): Option<Point> {
    match First(quotes, (q: Quote) => leg.at <= q.at <= endpoint && Tradable(q, halts) && t.Meets(q.bid))
    case None => None
    case Some(q) => Some(Point(q.at, q.bid, None))
  }

  function EarliestTouch(quotes: seq<Quote>, leg: Leg, endpoint: int, t: Threshold, halts: seq<Window>): Option<Point> {
    Earlier(Touch(quotes, leg, endpoint, t, halts), DeferredOver(quotes, leg, endpoint, t, halts, |halts|).point)
  }

  function Unanswered(
      quotes: seq<Quote>, leg: Leg, endpoint: int, t: Threshold, halts: seq<Window>): Option<(int, int)>
  {
    DeferredOver(quotes, leg, endpoint, t, halts, |halts|).missing
  }

  function QuotePoints(quotes: seq<Quote>, leg: Leg, endpoint: int, halts: seq<Window>): Points {
    Points(
      First(quotes, (q: Quote) => leg.at <= q.at <= leg.at + FRESHNESS && Tradable(q, halts)),
      EarliestTouch(quotes, leg, endpoint, Target(leg), halts),
      EarliestTouch(quotes, leg, endpoint, Stop(leg), halts),
      EarliestTouch(quotes, leg, endpoint, Target10(leg), halts),
      Unanswered(quotes, leg, endpoint, Target(leg), halts),
      Unanswered(quotes, leg, endpoint, Stop(leg), halts),
      Unanswered(quotes, leg, endpoint, Target10(leg), halts),
      First(quotes, (q: Quote) => endpoint <= q.at <= endpoint + FRESHNESS && Tradable(q, halts)),
      Last(quotes, (q: Quote) => endpoint - FRESHNESS <= q.at <= endpoint && Tradable(q, halts)))
  }

  // ---------------------------------------------------------------- the choice

  datatype Outcome = TargetExit | Target10Exit | StopExit | FlipExit | StillOpen | Unanswerable

  datatype LegResult = LegResult(outcome: Outcome, triggerAt: Option<int>, exitBid: Option<real>,
    returnPct: Option<real>)

  function Priced(leg: Leg, outcome: Outcome, at: int, bid: real): LegResult
    requires leg.price > 0.0
  {
    LegResult(outcome, Some(at), Some(bid), Some((bid / leg.price - 1.0) * 100.0))
  }

  function NoAnswer(at: Option<int>): LegResult { LegResult(Unanswerable, at, None, None) }

  datatype Candidate = Candidate(at: int, observed: int, rank: nat, outcome: Outcome, point: Option<Point>)

  /** min by (at, observed, rank). */
  predicate Sooner(c: Candidate, d: Candidate) {
    Before(c.at, c.observed, d.at, d.observed) || (c.at == d.at && c.observed == d.observed && c.rank < d.rank)
  }

  function Soonest(cs: seq<Candidate>): (r: Candidate)
    requires cs != []
    ensures r in cs && forall c :: c in cs ==> !Sooner(c, r)
  {
    if |cs| == 1 then cs[0]
    else
      var r := Soonest(cs[..|cs| - 1]);
      assert cs == cs[..|cs| - 1] + [cs[|cs| - 1]];
      if Sooner(cs[|cs| - 1], r) then cs[|cs| - 1] else r
  }

  function Boundary(sellAt: Option<int>, cutoff: int): Candidate {
    var at := if sellAt.Some? then sellAt.value else cutoff;
    Candidate(at, at, 2, if sellAt.Some? then FlipExit else StillOpen, None)
  }

  function PointCandidate(p: Option<Point>, rank: nat, outcome: Outcome): seq<Candidate> {
    if p.None? then [] else [Candidate(p.value.at, p.value.Observed(), rank, outcome, p)]
  }

  function MissingCandidate(m: Option<(int, int)>, rank: nat): seq<Candidate> {
    if m.None? then [] else [Candidate(m.value.0, m.value.1, rank, Unanswerable, None)]
  }

  function Candidates(points: Points, sellAt: Option<int>, cutoff: int): seq<Candidate> {
    PointCandidate(points.target, 0, TargetExit) + PointCandidate(points.stop, 1, StopExit)
    + MissingCandidate(points.targetMissing, 0) + MissingCandidate(points.stopMissing, 1)
    + [Boundary(sellAt, cutoff)]
  }

  /** Target and stop at the same quote time, observed at the same time: no order between them. */
  predicate Tied(points: Points) {
    && points.target.Some? && points.stop.Some?
    && points.target.value.at == points.stop.value.at
    && points.target.value.Observed() == points.stop.value.Observed()
  }

  function AtBoundary(leg: Leg, sellAt: Option<int>, points: Points, unpriced: int): LegResult
    requires leg.price > 0.0
  {
    match if sellAt.Some? then points.after else points.before
    case None => NoAnswer(Some(unpriced))
    case Some(q) => Priced(leg, if sellAt.Some? then FlipExit else StillOpen, q.at, q.bid)
  }

  function ChooseOutcome(leg: Leg, sellAt: Option<int>, cutoff: int, points: Points): LegResult
    requires leg.price > 0.0
  {
    if points.first.None? || Tied(points) then NoAnswer(None)
    else
      var c := Soonest(Candidates(points, sellAt, cutoff));
      if c.outcome == Unanswerable then NoAnswer(Some(c.at))
      else if c.point.None? then AtBoundary(leg, sellAt, points, c.at)
      else Priced(leg, c.outcome, c.at, c.point.value.bid)
  }

  function ChooseYardstick(leg: Leg, sellAt: Option<int>, cutoff: int, points: Points, target: Option<Point>,
                           missing: Option<(int, int)>, hit: Outcome): LegResult
    requires leg.price > 0.0
  {
    if points.first.None? then NoAnswer(None)
    else if missing.Some?
      && (target.None? || Before(missing.value.0, missing.value.1, target.value.at, target.value.Observed()))
    then NoAnswer(Some(missing.value.0))
    else if target.Some? then Priced(leg, hit, target.value.at, target.value.bid)
    else AtBoundary(leg, sellAt, points, Boundary(sellAt, cutoff).at)
  }

  function ChooseBoundary(leg: Leg, sellAt: Option<int>, cutoff: int, points: Points): LegResult
    requires leg.price > 0.0
  {
    if points.first.None? then NoAnswer(None) else AtBoundary(leg, sellAt, points, Boundary(sellAt, cutoff).at)
  }

  // ---------------------------------------------------------------- the boundary

  /** An ATR SELL inside a halt is executed at the reopen. */
  function DeferHaltedBoundary(sellAt: Option<int>, halts: seq<Window>): (r: (Option<int>, bool))
    ensures r.0.Some? <==> sellAt.Some?
  {
    if sellAt.None? then (None, false)
    else if halts == [] then (sellAt, false)
    else if Inside(sellAt.value, halts[0]) then (Some(halts[0].reopen), true)
    else DeferHaltedBoundary(sellAt, halts[1..])
  }

  function MeasurementEnd(sellAt: Option<int>, cutoff: int): int {
    if sellAt.Some? then sellAt.value else cutoff
  }

  // ---------------------------------------------------------------- halt exclusion

  /** The price was bid by a valid quote outside every halt, at the time reported. */
  ghost predicate PricedOutsideHalts(r: LegResult, quotes: seq<Quote>, halts: seq<Window>) {
    r.exitBid.Some? ==>
      && r.outcome != Unanswerable && r.triggerAt.Some?
      && exists q :: q in quotes && q.at == r.triggerAt.value && q.bid == r.exitBid.value && Tradable(q, halts)
  }

  ghost predicate PointTradable(p: Option<Point>, quotes: seq<Quote>, halts: seq<Window>) {
    p.Some? ==> exists q :: q in quotes && q.at == p.value.at && q.bid == p.value.bid && Tradable(q, halts)
  }

  lemma {:induction false} DeferredTradable(
      quotes: seq<Quote>, leg: Leg, endpoint: int, t: Threshold, halts: seq<Window>, k: nat)
    requires k <= |halts|
    ensures PointTradable(DeferredOver(quotes, leg, endpoint, t, halts, k).point, quotes, halts)
  {
    hide Halted;
    if k > 0 { DeferredTradable(quotes, leg, endpoint, t, halts, k - 1); }
  }

  lemma {:induction false} TouchTradable(quotes: seq<Quote>, leg: Leg, endpoint: int, t: Threshold, halts: seq<Window>)
    ensures PointTradable(EarliestTouch(quotes, leg, endpoint, t, halts), quotes, halts)
  {
    hide Halted, DeferredOver;
    DeferredTradable(quotes, leg, endpoint, t, halts, |halts|);
  }

  lemma {:induction false} PointsTradable(quotes: seq<Quote>, leg: Leg, endpoint: int, halts: seq<Window>)
    ensures var p := QuotePoints(quotes, leg, endpoint, halts);
      && PointTradable(p.target, quotes, halts) && PointTradable(p.stop, quotes, halts) &&
         PointTradable(p.target10, quotes, halts)
      && (p.after.Some? ==> p.after.value in quotes && Tradable(p.after.value, halts))
      && (p.before.Some? ==> p.before.value in quotes && Tradable(p.before.value, halts))
  {
    hide PointTradable, Halted, EarliestTouch;
    TouchTradable(quotes, leg, endpoint, Target(leg), halts);
    TouchTradable(quotes, leg, endpoint, Stop(leg), halts);
    TouchTradable(quotes, leg, endpoint, Target10(leg), halts);
  }

  predicate FromPoint(r: LegResult, p: Option<Point>) {
    p.Some? && r.outcome != Unanswerable && r.triggerAt == Some(p.value.at) && r.exitBid == Some(p.value.bid)
  }

  predicate FromQuote(r: LegResult, q: Option<Quote>) {
    q.Some? && r.outcome != Unanswerable && r.triggerAt == Some(q.value.at) && r.exitBid == Some(q.value.bid)
  }

  /** Where a price can come from: the thresholds of the rule, or the quote at the boundary. */
  predicate Sourced(r: LegResult, p: Option<Point>, q: Option<Point>, sellAt: Option<int>, points: Points) {
    r.exitBid.None? || FromPoint(r, p) || FromPoint(r, q) ||
      FromQuote(r, if sellAt.Some? then points.after else points.before)
  }

  lemma {:induction false} OutcomeSource(leg: Leg, sellAt: Option<int>, cutoff: int, points: Points)
    requires leg.price > 0.0
    ensures Sourced(ChooseOutcome(leg, sellAt, cutoff, points), points.target, points.stop, sellAt, points)
  {
    hide Candidates, Soonest, Tied;
    TargetsAreCandidates(points, sellAt, cutoff);
    if points.first.Some? && !Tied(points) {
      WhichCandidate(points, sellAt, cutoff, Soonest(Candidates(points, sellAt, cutoff)));
    }
  }

  /** The four rules applied to one leg: the competing exits, both yardsticks, and the boundary alone. */
  function Exits(leg: Leg, sellAt: Option<int>, cutoff: int, points: Points): (exits: seq<LegResult>)
    requires leg.price > 0.0
    ensures |exits| == 4
  {
    [ ChooseOutcome(leg, sellAt, cutoff, points),
      ChooseYardstick(leg, sellAt, cutoff, points, points.target, points.targetMissing, TargetExit),
      ChooseYardstick(leg, sellAt, cutoff, points, points.target10, points.target10Missing, Target10Exit),
      ChooseBoundary(leg, sellAt, cutoff, points) ]
  }

  ghost predicate AnySource(r: LegResult, sellAt: Option<int>, points: Points) {
    Sourced(r, points.target, points.stop, sellAt, points) || Sourced(r, points.target10, None, sellAt, points)
  }

  lemma {:induction false} ExitSource(leg: Leg, sellAt: Option<int>, cutoff: int, points: Points, r: LegResult)
    requires leg.price > 0.0 && r in Exits(leg, sellAt, cutoff, points)
    ensures AnySource(r, sellAt, points)
  {
    hide ChooseOutcome, Before;
    OutcomeSource(leg, sellAt, cutoff, points);
  }

  /** No exit is priced at a bid quoted during a halt. */
  lemma {:induction false} EveryPriceIsOutsideHalts(
      quotes: seq<Quote>, leg: Leg, endpoint: int, halts: seq<Window>, sellAt: Option<int>, cutoff: int, r: LegResult)
    requires leg.price > 0.0 && r in Exits(leg, sellAt, cutoff, QuotePoints(quotes, leg, endpoint, halts))
    ensures PricedOutsideHalts(r, quotes, halts)
  {
    hide Tradable, QuotePoints, Exits;
    PointsTradable(quotes, leg, endpoint, halts);
    ExitSource(leg, sellAt, cutoff, QuotePoints(quotes, leg, endpoint, halts), r);
  }

  // ---------------------------------------------------------------- deferring the boundary

  /** The deferred boundary is tradable, and deferring it again changes nothing. */
  lemma {:induction false} DeferredBoundaryIsTradable(sellAt: Option<int>, halts: seq<Window>)
    requires Separate(halts) && sellAt.Some?
    ensures var (at, deferred) := DeferHaltedBoundary(sellAt, halts);
      && at.Some? && !Halted(at.value, halts) && at.value >= sellAt.value
      && (deferred <==> Halted(sellAt.value, halts)) && (!deferred ==> at == sellAt)
      && DeferHaltedBoundary(at, halts) == (at, false)
  {
    var (at, deferred) := DeferHaltedBoundary(sellAt, halts);
    BoundaryIsReopen(sellAt, halts);
    if deferred {
      var w :| w in halts && Inside(sellAt.value, w) && at == Some(w.reopen);
      ReopenIsTradable(halts, w);
    }
    BoundaryIsReopen(at, halts);
  }

  lemma {:induction false} BoundaryIsReopen(sellAt: Option<int>, halts: seq<Window>)
    requires sellAt.Some?
    ensures var (at, deferred) := DeferHaltedBoundary(sellAt, halts);
      && (deferred <==> Halted(sellAt.value, halts)) && (!deferred ==> at == sellAt)
      && (deferred ==> exists w :: w in halts && Inside(sellAt.value, w) && at == Some(w.reopen))
  {
    if halts != [] && !Inside(sellAt.value, halts[0]) {
      BoundaryIsReopen(sellAt, halts[1..]);
      assert halts == [halts[0]] + halts[1..];
    }
  }

  // ---------------------------------------------------------------- thresholds seen while halted

  /** Halt k is the first that saw the threshold. */
  ghost predicate FirstSighting(quotes: seq<Quote>, leg: Leg, endpoint: int, t: Threshold, halts: seq<Window>, k: nat) {
    && k < |halts| && !SightIn(quotes, leg, endpoint, t, halts, halts[k]).Unseen?
    && forall j :: 0 <= j < k ==> SightIn(quotes, leg, endpoint, t, halts, halts[j]).Unseen?
  }

  /** The deferred result is that of the first sighting, and everything else comes after it. */
  ghost predicate Decides(d: Deferred, s: Sight) {
    match s
    case Unseen => false
    case Missing(reopen, observed) =>
      && d.missing == Some((reopen, observed))
      && (d.point.Some? ==> Before(reopen, observed, d.point.value.at, d.point.value.Observed()))
    case Reopened(p) =>
      && d.point == Some(p)
      && (d.missing.Some? ==> Before(p.at, p.Observed(), d.missing.value.0, d.missing.value.1))
  }

  lemma {:induction false} UnseenSoFar(
      quotes: seq<Quote>, leg: Leg, endpoint: int, t: Threshold, halts: seq<Window>, k: nat)
    requires k <= |halts| && forall j :: 0 <= j < k ==> SightIn(quotes, leg, endpoint, t, halts, halts[j]).Unseen?
    ensures DeferredOver(quotes, leg, endpoint, t, halts, k) == Deferred(None, None)
  {
    hide SightIn;
    if k > 0 { UnseenSoFar(quotes, leg, endpoint, t, halts, k - 1); }
  }

  /** The time a sighting counts from. */
  function SightAt(s: Sight): int {
    match s
    case Unseen => 0
    case Missing(reopen, _) => reopen
    case Reopened(p) => p.at
  }

  lemma {:induction false} SightTime(
      quotes: seq<Quote>, leg: Leg, endpoint: int, t: Threshold, halts: seq<Window>, w: Window)
    requires !SightIn(quotes, leg, endpoint, t, halts, w).Unseen?
    ensures w.reopen <= SightAt(SightIn(quotes, leg, endpoint, t, halts, w)) <= w.reopen + FRESHNESS
  {
    hide SightIn;
  }

  lemma {:induction false} JoinKeeps(d: Deferred, first: Sight, s: Sight)
    requires Decides(d, first) && (s.Unseen? || SightAt(first) < SightAt(s))
    ensures Decides(Join(d, s), first)
  {
  }

  lemma {:induction false} LaterSighting(
      quotes: seq<Quote>, leg: Leg, endpoint: int, t: Threshold, halts: seq<Window>, k: nat, j: nat)
    requires Detected(halts) && k < j < |halts|
    requires !SightIn(quotes, leg, endpoint, t, halts, halts[k]).Unseen? &&
      !SightIn(quotes, leg, endpoint, t, halts, halts[j]).Unseen?
    ensures SightAt(SightIn(quotes, leg, endpoint, t, halts, halts[k]))
      < SightAt(SightIn(quotes, leg, endpoint, t, halts, halts[j]))
  {
    hide SightIn, SightAt;
    SightTime(quotes, leg, endpoint, t, halts, halts[k]);
    SightTime(quotes, leg, endpoint, t, halts, halts[j]);
    assert halts[j] in halts;
  }

  lemma {:induction false} FirstSightingDecides(
      quotes: seq<Quote>, leg: Leg, endpoint: int, t: Threshold, halts: seq<Window>, k: nat, n: nat)
    requires Detected(halts) && FirstSighting(quotes, leg, endpoint, t, halts, k) && k < n <= |halts|
    ensures Decides(DeferredOver(quotes, leg, endpoint, t, halts, n),
      SightIn(quotes, leg, endpoint, t, halts, halts[k]))
  {
    hide SightIn, SightAt, Detected;
    if n == k + 1 {
      UnseenSoFar(quotes, leg, endpoint, t, halts, k);
    } else {
      FirstSightingDecides(quotes, leg, endpoint, t, halts, k, n - 1);
      if !SightIn(quotes, leg, endpoint, t, halts, halts[n - 1]).Unseen? {
        LaterSighting(quotes, leg, endpoint, t, halts, k, n - 1);
      }
      hide Join, Decides;
      JoinKeeps(DeferredOver(quotes, leg, endpoint, t, halts, n - 1),
                SightIn(quotes, leg, endpoint, t, halts, halts[k]),
                SightIn(quotes, leg, endpoint, t, halts, halts[n - 1]));
    }
  }

  /** Seen only while halted: no tradable quote reached the threshold. */
  ghost predicate OnlyHalted(quotes: seq<Quote>, leg: Leg, endpoint: int, t: Threshold, halts: seq<Window>) {
    forall q :: q in quotes && leg.at <= q.at <= endpoint && Tradable(q, halts) ==> !t.Meets(q.bid)
  }

  lemma {:induction false} HaltedTouch(
      quotes: seq<Quote>, leg: Leg, endpoint: int, t: Threshold, halts: seq<Window>, k: nat)
    requires Detected(halts) && FirstSighting(quotes, leg, endpoint, t, halts, k)
    requires OnlyHalted(quotes, leg, endpoint, t, halts)
    ensures Decides(Deferred(EarliestTouch(quotes, leg, endpoint, t, halts),
                             Unanswered(quotes, leg, endpoint, t, halts)),
                    SightIn(quotes, leg, endpoint, t, halts, halts[k]))
  {
    hide SightIn, DeferredOver, Detected, FirstSighting, Tradable;
    assert Touch(quotes, leg, endpoint, t, halts) == None;
    assert k < |halts| by { SightingIsAHalt(quotes, leg, endpoint, t, halts, k); }
    FirstSightingDecides(quotes, leg, endpoint, t, halts, k, |halts|);
  }

  lemma {:induction false} SightingIsAHalt(
      quotes: seq<Quote>, leg: Leg, endpoint: int, t: Threshold, halts: seq<Window>, k: nat)
    requires FirstSighting(quotes, leg, endpoint, t, halts, k)
    ensures k < |halts|
  {
  }

  /** A yardstick target seen only while halted exits at the first tradable quote of the first such halt's
      reopen, within 10 seconds, or cannot be answered. */
  lemma {:induction false} HaltedYardstick(
      quotes: seq<Quote>, leg: Leg, endpoint: int, t: Threshold, halts: seq<Window>, k: nat, sellAt: Option<int>,
      cutoff: int, points: Points, hit: Outcome)
    requires leg.price > 0.0 && points.first.Some?
    requires Detected(halts) && FirstSighting(quotes, leg, endpoint, t, halts, k)
    requires OnlyHalted(quotes, leg, endpoint, t, halts)
    ensures var sight := SightIn(quotes, leg, endpoint, t, halts, halts[k]);
      ChooseYardstick(leg, sellAt, cutoff, points, EarliestTouch(quotes, leg, endpoint, t, halts),
                      Unanswered(quotes, leg, endpoint, t, halts), hit)
      == if sight.Reopened? then Priced(leg, hit, sight.point.at, sight.point.bid) else NoAnswer(Some(halts[k].reopen))
  {
    hide SightIn, EarliestTouch, Unanswered, Detected, OnlyHalted;
    HaltedTouch(quotes, leg, endpoint, t, halts, k);
  }

  /** p is not after the unanswered reopen m. */
  predicate Reaches(p: Point, m: Option<(int, int)>) {
    m.Some? ==> !Before(m.value.0, m.value.1, p.at, p.Observed())
  }

  predicate Precedes(p: Point, at: int, observed: int) { Before(p.at, p.Observed(), at, observed) }

  /** Among the competing exits a target, touched or carried to a reopen, wins exactly when neither the boundary
      nor a reopen without a quote comes before it, and it comes before the stop. */
  lemma {:induction false} TargetOutcome(leg: Leg, sellAt: Option<int>, cutoff: int, points: Points)
    requires leg.price > 0.0 && points.first.Some? && points.target.Some?
    ensures var p, b := points.target.value, Boundary(sellAt, cutoff);
      ChooseOutcome(leg, sellAt, cutoff, points) == Priced(leg, TargetExit, p.at, p.bid)
      <==>
      && !Before(b.at, b.observed, p.at, p.Observed())
      && (points.stop.Some? ==> Precedes(p, points.stop.value.at, points.stop.value.Observed()))
      && Reaches(p, points.targetMissing) && Reaches(p, points.stopMissing)
  {
    hide Candidates, Soonest;
    TargetsAreCandidates(points, sellAt, cutoff);
    StopsAreCandidates(points, sellAt, cutoff);
    if !Tied(points) {
      var c := Soonest(Candidates(points, sellAt, cutoff));
      WhichCandidate(points, sellAt, cutoff, c);
      var p := Candidate(points.target.value.at, points.target.value.Observed(), 0, TargetExit, points.target);
      if c.outcome == Unanswerable && !Sooner(c, p) { PointsListedFirst(points, sellAt, cutoff, p, c); }
    }
  }

  /** The same for a stop, which loses ties against the target's reopen without a quote. */
  lemma {:induction false} StopOutcome(leg: Leg, sellAt: Option<int>, cutoff: int, points: Points)
    requires leg.price > 0.0 && points.first.Some? && points.stop.Some?
    ensures var p, b := points.stop.value, Boundary(sellAt, cutoff);
      ChooseOutcome(leg, sellAt, cutoff, points) == Priced(leg, StopExit, p.at, p.bid)
      <==>
      && !Before(b.at, b.observed, p.at, p.Observed())
      && (points.target.Some? ==> Precedes(p, points.target.value.at, points.target.value.Observed()))
      && (points.targetMissing.Some? ==>
           Precedes(p, points.targetMissing.value.0, points.targetMissing.value.1))
      && Reaches(p, points.stopMissing)
  {
    hide Candidates, Soonest;
    TargetsAreCandidates(points, sellAt, cutoff);
    StopsAreCandidates(points, sellAt, cutoff);
    if !Tied(points) {
      var c := Soonest(Candidates(points, sellAt, cutoff));
      WhichCandidate(points, sellAt, cutoff, c);
      var p := Candidate(points.stop.value.at, points.stop.value.Observed(), 1, StopExit, points.stop);
      if c.outcome == Unanswerable && !Sooner(c, p) { PointsListedFirst(points, sellAt, cutoff, p, c); }
    }
  }

  lemma {:induction false} TargetsAreCandidates(points: Points, sellAt: Option<int>, cutoff: int)
    ensures Boundary(sellAt, cutoff) in Candidates(points, sellAt, cutoff)
    ensures points.target.Some? ==>
      Candidate(points.target.value.at, points.target.value.Observed(), 0, TargetExit, points.target)
        in Candidates(points, sellAt, cutoff)
    ensures points.targetMissing.Some? ==>
      Candidate(points.targetMissing.value.0, points.targetMissing.value.1, 0, Unanswerable, None)
        in Candidates(points, sellAt, cutoff)
  {
  }

  lemma {:induction false} StopsAreCandidates(points: Points, sellAt: Option<int>, cutoff: int)
    ensures points.stop.Some? ==>
      Candidate(points.stop.value.at, points.stop.value.Observed(), 1, StopExit, points.stop)
        in Candidates(points, sellAt, cutoff)
    ensures points.stopMissing.Some? ==>
      Candidate(points.stopMissing.value.0, points.stopMissing.value.1, 1, Unanswerable, None)
        in Candidates(points, sellAt, cutoff)
  {
  }

  lemma {:induction false} WhichCandidate(points: Points, sellAt: Option<int>, cutoff: int, c: Candidate)
    requires c in Candidates(points, sellAt, cutoff)
    ensures
      || [c] == PointCandidate(points.target, 0, TargetExit) || [c] == PointCandidate(points.stop, 1, StopExit)
      || [c] == MissingCandidate(points.targetMissing, 0) || [c] == MissingCandidate(points.stopMissing, 1)
      || c == Boundary(sellAt, cutoff)
  {
  }

  /** Of two equally soon candidates the one listed first is taken. */
  lemma {:induction false} FirstOfEquals(cs: seq<Candidate>, i: nat, c: Candidate)
    requires i < |cs| && !Sooner(c, cs[i]) && c !in cs[..i + 1]
    ensures Soonest(cs) != c
  {
    if |cs| == i + 1 {
      assert cs[..i + 1] == cs;
    } else {
      assert cs[..|cs| - 1][..i + 1] == cs[..i + 1];
      FirstOfEquals(cs[..|cs| - 1], i, c);
      assert cs[i] in cs[..|cs| - 1];
    }
  }

  /** A target point is listed before everything unanswered; so is a stop point. */
  lemma {:induction false} PointsListedFirst(
      points: Points, sellAt: Option<int>, cutoff: int, p: Candidate, c: Candidate)
    requires [p] == PointCandidate(points.target, 0, TargetExit) || [p] == PointCandidate(points.stop, 1, StopExit)
    requires c.outcome == Unanswerable && !Sooner(c, p)
    ensures Soonest(Candidates(points, sellAt, cutoff)) != c
  {
    hide Soonest, Sooner;
    var cs := Candidates(points, sellAt, cutoff);
    var i := if [p] == PointCandidate(points.target, 0, TargetExit) then 0
             else |PointCandidate(points.target, 0, TargetExit)|;
    assert cs[i] == p;
    FirstOfEquals(cs, i, c);
  }

  /** A halted target without a reopen quote is never an exit at the target. The leg is unanswerable at the
      earliest reopen without a quote, exactly when neither the boundary nor the stop comes before it. */
  lemma {:induction false} MissingTargetOutcome(
      leg: Leg, sellAt: Option<int>, cutoff: int, points: Points, reopen: int, observed: int)
    requires leg.price > 0.0 && points.first.Some? && observed < reopen
    requires Decides(Deferred(points.target, points.targetMissing), Missing(reopen, observed))
    requires points.stopMissing.Some? ==> points.stopMissing.value.1 < points.stopMissing.value.0
    ensures var r, m := ChooseOutcome(leg, sellAt, cutoff, points),
                        EarlierPair(points.stopMissing, (reopen, observed)).value;
      && r.outcome != TargetExit
      && (r == NoAnswer(Some(m.0)) <==>
          && !Tied(points) && m.0 <= Boundary(sellAt, cutoff).at
          && (points.stop.Some? ==>
              var s := (points.stop.value.at, points.stop.value.Observed());
              Before(m.0, m.1, s.0, s.1) || s == m == (reopen, observed)))
  {
    hide Candidates, Soonest;
    TargetsAreCandidates(points, sellAt, cutoff);
    StopsAreCandidates(points, sellAt, cutoff);
    if !Tied(points) {
      var c := Soonest(Candidates(points, sellAt, cutoff));
      WhichCandidate(points, sellAt, cutoff, c);
      if points.stop.Some? && c.outcome == Unanswerable {
        var p := Candidate(points.stop.value.at, points.stop.value.Observed(), 1, StopExit, points.stop);
        if !Sooner(c, p) { PointsListedFirst(points, sellAt, cutoff, p, c); }
      }
    }
  }

  /** The same for a halted stop, against which a target at the same time wins. */
  lemma {:induction false} MissingStopOutcome(
      leg: Leg, sellAt: Option<int>, cutoff: int, points: Points, reopen: int, observed: int)
    requires leg.price > 0.0 && points.first.Some? && observed < reopen
    requires Decides(Deferred(points.stop, points.stopMissing), Missing(reopen, observed))
    requires points.targetMissing.Some? ==> points.targetMissing.value.1 < points.targetMissing.value.0
    ensures var r, m := ChooseOutcome(leg, sellAt, cutoff, points),
                        EarlierPair(points.targetMissing, (reopen, observed)).value;
      && r.outcome != StopExit
      && (r == NoAnswer(Some(m.0)) <==>
          && !Tied(points) && m.0 <= Boundary(sellAt, cutoff).at
          && (points.target.Some? ==> Before(m.0, m.1, points.target.value.at, points.target.value.Observed())))
  {
    hide Candidates, Soonest;
    TargetsAreCandidates(points, sellAt, cutoff);
    StopsAreCandidates(points, sellAt, cutoff);
    if !Tied(points) {
      var c := Soonest(Candidates(points, sellAt, cutoff));
      WhichCandidate(points, sellAt, cutoff, c);
      if points.target.Some? && c.outcome == Unanswerable {
        var p := Candidate(points.target.value.at, points.target.value.Observed(), 0, TargetExit, points.target);
        if !Sooner(c, p) { PointsListedFirst(points, sellAt, cutoff, p, c); }
      }
    }
  }

  // A halt from 100 s to 400 s, the target seen at 200 s, the first tradable quote at 401 s.
  const HALT := Window(100 * SECOND, 400 * SECOND)
  const OPENING := Quote(0, 100.0, 100.0)
  const HALTED := Quote(200 * SECOND, 110.0, 110.0)
  const REOPENING := Quote(401 * SECOND, 120.0, 120.0)
  const QUOTES := [OPENING, HALTED, REOPENING]
  const LEG := Leg(0, 100.0)

  lemma {:induction false} OneHalt(at: int)
    ensures Halted(at, [HALT]) <==> Inside(at, HALT)
  {
    if Inside(at, HALT) { assert HALT in [HALT]; }
  }

  lemma {:induction false} ExampleSight()
    ensures OnlyHalted(QUOTES, LEG, 400 * SECOND, Target(LEG), [HALT])
    ensures SightIn(QUOTES, LEG, 400 * SECOND, Target(LEG), [HALT], HALT) ==
      Reopened(Point(401 * SECOND, 120.0, Some(200 * SECOND)))
  {
    hide Halted;
    OneHalt(0);
    OneHalt(200 * SECOND);
    OneHalt(401 * SECOND);
    assert HALTED in QUOTES && SeenHalted(HALTED, LEG, 400 * SECOND, Target(LEG), HALT);
    assert REOPENING in QUOTES && Reopens(REOPENING, HALT, [HALT]);
  }

  /** The promise that a halted threshold exits at the reopen fails in general: here an ATR SELL in the same
      halt is executed first, at the same quote but as a flip exit. */
  lemma {:induction false} HaltedTargetMayLose()
    ensures DeferHaltedBoundary(Some(300 * SECOND), [HALT]) == (Some(400 * SECOND), true)
    ensures SightIn(QUOTES, LEG, 400 * SECOND, Target(LEG), [HALT], HALT).Reopened?
    ensures var points := QuotePoints(QUOTES, LEG, 400 * SECOND, [HALT]);
      ChooseOutcome(LEG, Some(400 * SECOND), 1000 * SECOND, points).outcome == FlipExit
  {
    hide QuotePoints, Halted, SightIn, Candidates, Soonest;
    ExampleSight();
    ExamplePoints();
    var points := QuotePoints(QUOTES, LEG, 400 * SECOND, [HALT]);
    TargetsAreCandidates(points, Some(400 * SECOND), 1000 * SECOND);
    WhichCandidate(points, Some(400 * SECOND), 1000 * SECOND,
                   Soonest(Candidates(points, Some(400 * SECOND), 1000 * SECOND)));
  }

  lemma {:induction false} ExamplePoints()
    ensures var points := QuotePoints(QUOTES, LEG, 400 * SECOND, [HALT]);
      && points.first.Some? && points.after.Some? && points.stop == None && points.stopMissing == None
      && Decides(Deferred(points.target, points.targetMissing),
         Reopened(Point(401 * SECOND, 120.0, Some(200 * SECOND))))
  {
    hide Halted, SightIn, DeferredOver, EarliestTouch, Unanswered;
    OneHalt(0);
    OneHalt(401 * SECOND);
    ExampleSight();
    assert Separate([HALT]) && Detected([HALT]);
    HaltedTouch(QUOTES, LEG, 400 * SECOND, Target(LEG), [HALT], 0);
    assert OPENING in QUOTES && Tradable(OPENING, [HALT]);
    assert REOPENING in QUOTES && Tradable(REOPENING, [HALT]);
    NoStop();
  }

  lemma {:induction false} NoStop()
    ensures EarliestTouch(QUOTES, LEG, 400 * SECOND, Stop(LEG), [HALT]) == None
    ensures Unanswered(QUOTES, LEG, 400 * SECOND, Stop(LEG), [HALT]) == None
  {
    hide Tradable, SightIn, DeferredOver;
    assert forall q :: q in QUOTES ==> !Stop(LEG).Meets(q.bid);
    assert SightIn(QUOTES, LEG, 400 * SECOND, Stop(LEG), [HALT], HALT).Unseen?;
    UnseenSoFar(QUOTES, LEG, 400 * SECOND, Stop(LEG), [HALT], 1);
  }

  // ---------------------------------------------------------------- exits and entries

  ghost predicate NotBefore(r: LegResult, at: int) { r.exitBid.Some? ==> r.triggerAt.Some? && r.triggerAt.value >= at }

  lemma {:induction false} DeferredFollowsEntry(
      quotes: seq<Quote>, leg: Leg, endpoint: int, t: Threshold, halts: seq<Window>, k: nat)
    requires k <= |halts|
    ensures var p := DeferredOver(quotes, leg, endpoint, t, halts, k).point; p.Some? ==> p.value.at >= leg.at
  {
    hide Halted;
    if k > 0 { DeferredFollowsEntry(quotes, leg, endpoint, t, halts, k - 1); }
  }

  lemma {:induction false} TouchFollowsEntry(
      quotes: seq<Quote>, leg: Leg, endpoint: int, t: Threshold, halts: seq<Window>)
    ensures var p := EarliestTouch(quotes, leg, endpoint, t, halts); p.Some? ==> p.value.at >= leg.at
  {
    hide Halted, DeferredOver;
    DeferredFollowsEntry(quotes, leg, endpoint, t, halts, |halts|);
  }

  /** Every exit of rule k is at or after the purchase, whatever the quotes and halts. */
  ghost predicate AlwaysFollows(k: nat, leg: Leg, sellAt: Option<int>, cutoff: int)
    requires leg.price > 0.0 && k < 4
  {
    forall quotes: seq<Quote>, halts: seq<Window> :: InOrder(quotes) ==>
      NotBefore(Exits(leg, sellAt, cutoff, QuotePoints(quotes, leg, MeasurementEnd(sellAt, cutoff), halts))[k], leg.at)
  }

  /** The purchase is known to precede what the boundary may be priced at. */
  predicate BoughtInTime(leg: Leg, sellAt: Option<int>, cutoff: int) {
    if sellAt.Some? then leg.at <= sellAt.value else leg.at + FRESHNESS <= cutoff
  }

  /** No rule ever prices an exit before the purchase exactly for legs bought by the SELL, or, without one, at
      least 10 s before the cutoff: the boundary quote is searched without regard to the entry. */
  lemma {:induction false} ExitFollowsEntry(k: nat, leg: Leg, sellAt: Option<int>, cutoff: int)
    requires leg.price > 0.0 && k < 4
    ensures AlwaysFollows(k, leg, sellAt, cutoff) <==> BoughtInTime(leg, sellAt, cutoff)
  {
    hide Exits, QuotePoints, InOrder, EarlyQuotes;
    if BoughtInTime(leg, sellAt, cutoff) {
      forall quotes: seq<Quote>, halts: seq<Window>
        ensures NotBefore(
          Exits(leg, sellAt, cutoff, QuotePoints(quotes, leg, MeasurementEnd(sellAt, cutoff), halts))[k], leg.at)
      {
        InTimeFollows(quotes, leg, halts, sellAt, cutoff, k);
      }
    } else {
      var quotes := EarlyQuotes(leg, sellAt, cutoff);
      LateExitPrecedes(leg, sellAt, cutoff, k);
    }
  }

  lemma {:induction false} InTimeFollows(
      quotes: seq<Quote>, leg: Leg, halts: seq<Window>, sellAt: Option<int>, cutoff: int, k: nat)
    requires leg.price > 0.0 && k < 4 && BoughtInTime(leg, sellAt, cutoff)
    ensures NotBefore(
      Exits(leg, sellAt, cutoff, QuotePoints(quotes, leg, MeasurementEnd(sellAt, cutoff), halts))[k], leg.at)
  {
    hide Exits, QuotePoints;
    var points := QuotePoints(quotes, leg, MeasurementEnd(sellAt, cutoff), halts);
    PointsFollow(quotes, leg, MeasurementEnd(sellAt, cutoff), halts);
    ExitSource(leg, sellAt, cutoff, points, Exits(leg, sellAt, cutoff, points)[k]);
  }

  lemma {:induction false} PointsFollow(quotes: seq<Quote>, leg: Leg, endpoint: int, halts: seq<Window>)
    ensures var points := QuotePoints(quotes, leg, endpoint, halts);
      && (points.target.Some? ==> points.target.value.at >= leg.at)
      && (points.stop.Some? ==> points.stop.value.at >= leg.at)
      && (points.target10.Some? ==> points.target10.value.at >= leg.at)
      && (points.after.Some? ==> points.after.value.at >= endpoint)
      && (points.before.Some? ==> points.before.value.at >= endpoint - FRESHNESS)
  {
    hide Tradable, EarliestTouch, Unanswered;
    TouchFollowsEntry(quotes, leg, endpoint, Target(leg), halts);
    TouchFollowsEntry(quotes, leg, endpoint, Stop(leg), halts);
    TouchFollowsEntry(quotes, leg, endpoint, Target10(leg), halts);
  }

  /** A quote at the purchase price just before the purchase, and the next one after the boundary. */
  function EarlyQuotes(leg: Leg, sellAt: Option<int>, cutoff: int): seq<Quote> {
    var early := if sellAt.Some? then sellAt.value else if leg.at <= cutoff then leg.at - 1 else cutoff;
    [ Quote(early, leg.price, leg.price),
      Quote(if sellAt.Some? then leg.at else leg.at + FRESHNESS, leg.price, leg.price) ]
  }

  /** Every other leg has quotes at which each of the rules exits before the purchase. */
  lemma {:induction false} LateExitPrecedes(leg: Leg, sellAt: Option<int>, cutoff: int, k: nat)
    requires leg.price > 0.0 && k < 4 && !BoughtInTime(leg, sellAt, cutoff)
    ensures var quotes := EarlyQuotes(leg, sellAt, cutoff);
      var r := Exits(leg, sellAt, cutoff, QuotePoints(quotes, leg, MeasurementEnd(sellAt, cutoff), []))[k];
      InOrder(quotes) && r.exitBid.Some? && r.triggerAt == Some(quotes[0].at) && quotes[0].at < leg.at
  {
    hide QuotePoints, Exits, Untouched;
    var points := QuotePoints(EarlyQuotes(leg, sellAt, cutoff), leg, MeasurementEnd(sellAt, cutoff), []);
    EarlyPoints(leg, sellAt, cutoff);
    OnlyBoundary(leg, sellAt, cutoff, points);
    assert Exits(leg, sellAt, cutoff, points)[k] in Exits(leg, sellAt, cutoff, points);
  }

  lemma {:induction false} EarlyPoints(leg: Leg, sellAt: Option<int>, cutoff: int)
    requires leg.price > 0.0 && !BoughtInTime(leg, sellAt, cutoff)
    ensures var quotes := EarlyQuotes(leg, sellAt, cutoff);
      var points := QuotePoints(quotes, leg, MeasurementEnd(sellAt, cutoff), []);
      && points.first.Some? && Untouched(points)
      && (if sellAt.Some? then points.after else points.before) == Some(quotes[0])
  {
    hide EarliestTouch, Unanswered, Untouched;
    var quotes, endpoint := EarlyQuotes(leg, sellAt, cutoff), MeasurementEnd(sellAt, cutoff);
    var points := QuotePoints(quotes, leg, endpoint, []);
    assert quotes[0] in quotes && Tradable(quotes[0], []);
    assert quotes[1] in quotes && Tradable(quotes[1], []);
    assert points.first.Some?;
    UntouchedAtCost(quotes, leg, endpoint);
  }

  /** No threshold was reached. */
  predicate Untouched(points: Points) {
    && points.target.None? && points.stop.None? && points.target10.None?
    && points.targetMissing.None? && points.stopMissing.None? && points.target10Missing.None?
  }

  lemma {:induction false} UntouchedAtCost(quotes: seq<Quote>, leg: Leg, endpoint: int)
    requires leg.price > 0.0 && forall q :: q in quotes ==> q.bid == leg.price
    ensures Untouched(QuotePoints(quotes, leg, endpoint, []))
  {
    hide Tradable;
  }

  /** Then every rule exits at the boundary. */
  lemma {:induction false} OnlyBoundary(leg: Leg, sellAt: Option<int>, cutoff: int, points: Points)
    requires leg.price > 0.0 && points.first.Some? && Untouched(points)
    ensures forall r :: r in Exits(leg, sellAt, cutoff, points) ==>
      r == AtBoundary(leg, sellAt, points, Boundary(sellAt, cutoff).at)
  {
    assert Candidates(points, sellAt, cutoff) == [Boundary(sellAt, cutoff)];
  }
}
