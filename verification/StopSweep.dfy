/** The stop sweep of scripts/orb_flat_five_stop_sweep.py: +5% target, a percentage stop and ATR flips race;
    the earliest exit counts unless two feeds tie. The sweep widens the stop and keeps everything else. */
module StopSweep {
  import opened Arithmetic
  import opened Wrappers
  import opened Halts

  datatype Quote = Quote(at: int, bid: real)

  datatype Trigger = Trigger(barMinute: int, decisionAt: int, exit: Option<Quote>)

  datatype ExitRule = Target | Stop | Atr | Unanswerable

  datatype StopResult = StopResult(
    target: Option<Quote>, stop: Option<Quote>, atr: Option<Trigger>,
    rule: ExitRule, exit: Option<Quote>, returnPct: Option<real>,
    recovered: Option<bool>, stopOnReopen: bool, targetAnswerable: bool, stopAnswerable: bool)

  ghost predicate InOrder(path: seq<Quote>) {
    forall i, j :: 0 <= i < j < |path| ==> path[i].at <= path[j].at
  }

  // ---------------------------------------------------------------- the candidates

  function FirstAtLeast(path: seq<Quote>, price: real): (r: Option<Quote>)
    ensures r.Some? ==> r.value in path && r.value.bid >= price
    ensures r.None? ==> forall q :: q in path ==> q.bid < price
    ensures r.Some? && InOrder(path) ==> forall q :: q in path && q.bid >= price ==> r.value.at <= q.at
  {
    if path == [] then None else if path[0].bid >= price then Some(path[0]) else FirstAtLeast(path[1..], price)
  }

  function FirstAtMost(path: seq<Quote>, price: real): (r: Option<Quote>)
    ensures r.Some? ==> r.value in path && r.value.bid <= price
    ensures r.None? ==> forall q :: q in path ==> q.bid > price
    ensures r.Some? && InOrder(path) ==> forall q :: q in path && q.bid <= price ==> r.value.at <= q.at
  {
    if path == [] then None else if path[0].bid <= price then Some(path[0]) else FirstAtMost(path[1..], price)
  }

  function FirstFrom(path: seq<Quote>, at: int): (r: Option<Quote>)
    ensures r.Some? ==> r.value in path && r.value.at >= at
    ensures r.None? ==> forall q :: q in path ==> q.at < at
    ensures r.Some? && InOrder(path) ==> forall q :: q in path && q.at >= at ==> r.value.at <= q.at
  {
    if path == [] then None else if path[0].at >= at then Some(path[0]) else FirstFrom(path[1..], at)
  }

  function FirstExecutable(triggers: seq<Trigger>): (r: Option<Trigger>)
    ensures r.Some? ==> r.value in triggers && r.value.exit.Some?
    ensures r.None? ==> forall t :: t in triggers ==> t.exit.None?
  {
    if triggers == [] then None
    else if triggers[0].exit.Some? then Some(triggers[0])
    else FirstExecutable(triggers[1..])
  }

  /** The trigger of a SELL flip decided after the entry. */
  predicate Triggered(t: Trigger, sells: seq<(int, bool)>, path: seq<Quote>, entryAt: int) {
    && (t.barMinute, true) in sells && t.decisionAt == t.barMinute + MINUTE > entryAt
    && t.exit == FirstFrom(path, t.decisionAt)
  }

  /** The triggers are exactly those of the flips. */
  ghost predicate AreTriggers(triggers: seq<Trigger>, sells: seq<(int, bool)>, path: seq<Quote>, entryAt: int) {
    forall t :: t in triggers <==> Triggered(t, sells, path, entryAt)
  }

  lemma {:induction false} TriggersNext(
      triggers: seq<Trigger>, sells: seq<(int, bool)>, k: nat, path: seq<Quote>, entryAt: int, next: Trigger)
    requires k < |sells| && AreTriggers(triggers, sells[..k], path, entryAt)
    requires next == Trigger(sells[k].0, sells[k].0 + MINUTE, FirstFrom(path, sells[k].0 + MINUTE))
    ensures AreTriggers(triggers + if sells[k].1 && next.decisionAt > entryAt then [next] else [],
                        sells[..k + 1], path, entryAt)
  {
    var now := triggers + if sells[k].1 && next.decisionAt > entryAt then [next] else [];
    forall t: Trigger ensures t in now <==> Triggered(t, sells[..k + 1], path, entryAt) {
      FlipNext(sells, k, t.barMinute);
      assert t in triggers <==> Triggered(t, sells[..k], path, entryAt);
    }
  }

  lemma {:induction false} FlipNext(sells: seq<(int, bool)>, k: nat, minute: int)
    requires k < |sells|
    ensures (minute, true) in sells[..k + 1] <==> (minute, true) in sells[..k] || sells[k] == (minute, true)
  {
    assert sells[..k + 1] == sells[..k] + [sells[k]];
  }

  ghost predicate InDecisionOrder(triggers: seq<Trigger>) {
    forall i, j :: 0 <= i < j < |triggers| ==> triggers[i].decisionAt < triggers[j].decisionAt
  }

  /** The SELL flips decided after the entry, each with the first executable quote from its decision on. */
  method ReplayAtrTriggers(sells: seq<(int, bool)>, path: seq<Quote>, entryAt: int) returns (triggers: seq<Trigger>)
    ensures AreTriggers(triggers, sells, path, entryAt)
    ensures (forall i, j :: 0 <= i < j < |sells| ==> sells[i].0 < sells[j].0) ==> InDecisionOrder(triggers)
  {
    hide Triggered, AreTriggers, FirstFrom;
    triggers := [];
    NothingTriggered(path, entryAt);
    assert sells[..0] == [];
    for k := 0 to |sells|
      invariant AreTriggers(triggers, sells[..k], path, entryAt)
      invariant (forall i, j :: 0 <= i < j < |sells| ==> sells[i].0 < sells[j].0) ==>
        InDecisionOrder(triggers)
        && forall i :: 0 <= i < |triggers| ==> k > 0 && triggers[i].decisionAt <= sells[k - 1].0 + MINUTE
    {
      assert (forall i, j :: 0 <= i < j < |sells| ==> sells[i].0 < sells[j].0) ==>
        k > 0 ==> sells[k - 1].0 < sells[k].0;
      var decisionAt := sells[k].0 + MINUTE;
      var next := Trigger(sells[k].0, decisionAt, FirstFrom(path, decisionAt));
      TriggersNext(triggers, sells, k, path, entryAt, next);
      assert triggers + [] == triggers;
      if decisionAt <= entryAt || !sells[k].1 { continue; }
      triggers := triggers + [next];
    }
    assert sells[..|sells|] == sells;
  }

  lemma {:induction false} NothingTriggered(path: seq<Quote>, entryAt: int)
    ensures AreTriggers([], [], path, entryAt)
  {
  }

  function TargetOf(path: seq<Quote>, entry: real): Option<Quote> { FirstAtLeast(path, entry * 1.05) }

  function StopPrice(entry: real, pct: real): real { entry * (1.0 - pct / 100.0) }

  function StopOf(path: seq<Quote>, entry: real, pct: real): Option<Quote> { FirstAtMost(path, StopPrice(entry, pct)) }

  datatype Candidate = Candidate(rule: ExitRule, quote: Quote)

  function One(rule: ExitRule, quote: Option<Quote>): seq<Candidate> {
    if quote.None? then [] else [Candidate(rule, quote.value)]
  }

  function ExitOf(atr: Option<Trigger>): Option<Quote> { if atr.None? then None else atr.value.exit }

  function Candidates(target: Option<Quote>, stop: Option<Quote>, atr: Option<Quote>): seq<Candidate> {
    One(Target, target) + One(Stop, stop) + One(Atr, atr)
  }

  function EarliestAt(cs: seq<Candidate>): (at: int)
    requires cs != []
    ensures exists c :: c in cs && c.quote.at == at
    ensures forall c :: c in cs ==> at <= c.quote.at
  {
    if |cs| == 1 then cs[0].quote.at
    else
      var rest := EarliestAt(cs[1..]);
      if cs[0].quote.at < rest then cs[0].quote.at else rest
  }

  function At(cs: seq<Candidate>, at: int): (r: seq<Candidate>)
    ensures forall c :: c in r <==> c in cs && c.quote.at == at
  {
    if cs == [] then [] else (if cs[0].quote.at == at then [cs[0]] else []) + At(cs[1..], at)
  }

  function AfterReopen(quote: Quote, path: seq<Quote>, halts: seq<Window>): bool {
    exists w :: w in halts && FirstFrom(path, w.reopen).Some? && FirstFrom(path, w.reopen).value.at == quote.at
  }

  function EvaluateStop(
      entry: real, pct: real, path: seq<Quote>, triggers: seq<Trigger>, halts: seq<Window>, complete: bool)
    : StopResult
  {
    var target, stop, atr := TargetOf(path, entry), StopOf(path, entry, pct), FirstExecutable(triggers);
    var cs := Candidates(target, stop, ExitOf(atr));
    if cs == [] then
      StopResult(target, stop, if triggers == [] then None else Some(triggers[0]), Unanswerable, None, None, None,
                 false, complete, complete)
    else
      var first := At(cs, EarliestAt(cs));
      if |first| != 1 then
        StopResult(target, stop, atr, Unanswerable, None, None, None,
                   false, target.Some? || complete, stop.Some? || complete)
      else
        var (rule, exit) := (first[0].rule, first[0].quote);
        var later := exists q :: q in path && q.at > exit.at && q.bid >= entry * 1.05;
        StopResult(target, stop, atr, rule, Some(exit), Percent(exit.bid, entry),
                   if rule != Stop then None else if later then Some(true) else if complete then Some(false) else None,
                   rule == Stop && AfterReopen(exit, path, halts), target.Some? || complete, stop.Some? || complete)
  }

  // ---------------------------------------------------------------- what the choice means

  /** Strictly before every other candidate. */
  ghost predicate Leads(quote: Option<Quote>, other: Option<Quote>) {
    quote.Some? && (other.Some? ==> quote.value.at < other.value.at)
  }

  lemma {:induction false} AtAppend(a: seq<Candidate>, b: seq<Candidate>, at: int)
    ensures At(a + b, at) == At(a, at) + At(b, at)
  {
    if a == [] {
      assert a + b == b;
    } else {
      assert (a + b)[1..] == a[1..] + b;
      AtAppend(a[1..], b, at);
    }
  }

  function Now(rule: ExitRule, quote: Option<Quote>, at: int): seq<Candidate> {
    if quote.Some? && quote.value.at == at then [Candidate(rule, quote.value)] else []
  }

  lemma {:induction false} AtOne(rule: ExitRule, quote: Option<Quote>, at: int)
    ensures At(One(rule, quote), at) == Now(rule, quote, at)
  {
  }

  lemma {:induction false} AtCandidates(target: Option<Quote>, stop: Option<Quote>, atr: Option<Quote>, at: int)
    ensures At(Candidates(target, stop, atr), at) == Now(Target, target, at) + Now(Stop, stop, at) + Now(Atr, atr, at)
  {
    hide At, One, Now;
    AtOne(Target, target, at);
    AtOne(Stop, stop, at);
    AtOne(Atr, atr, at);
    AtAppend(One(Target, target) + One(Stop, stop), One(Atr, atr), at);
    AtAppend(One(Target, target), One(Stop, stop), at);
  }

  lemma {:induction false} EarliestBounds(target: Option<Quote>, stop: Option<Quote>, atr: Option<Quote>)
    requires Candidates(target, stop, atr) != []
    ensures var at := EarliestAt(Candidates(target, stop, atr));
      && (target.Some? ==> at <= target.value.at) && (stop.Some? ==> at <= stop.value.at)
      && (atr.Some? ==> at <= atr.value.at)
      && ((target.Some? && at == target.value.at) || (stop.Some? && at == stop.value.at) ||
           (atr.Some? && at == atr.value.at))
  {
    hide EarliestAt;
    var cs := Candidates(target, stop, atr);
    if target.Some? { assert Candidate(Target, target.value) in cs; }
    if stop.Some? { assert Candidate(Stop, stop.value) in cs; }
    if atr.Some? { assert Candidate(Atr, atr.value) in cs; }
  }

  /** An exit counts exactly when it strictly precedes the others; otherwise the sweep cannot answer. */
  lemma {:induction false} LeaderExits(
      entry: real, pct: real, path: seq<Quote>, triggers: seq<Trigger>, halts: seq<Window>, complete: bool)
    ensures var r := EvaluateStop(entry, pct, path, triggers, halts, complete);
      var target, stop, atr := TargetOf(path, entry), StopOf(path, entry, pct), ExitOf(FirstExecutable(triggers));
      && (r.rule == Target <==> Leads(target, stop) && Leads(target, atr))
      && (r.rule == Stop <==> Leads(stop, target) && Leads(stop, atr))
      && (r.rule == Atr <==> Leads(atr, target) && Leads(atr, stop))
      && r.exit == (match r.rule case Target => target case Stop => stop case Atr => atr case Unanswerable => None)
  {
    hide TargetOf, StopOf, FirstExecutable, AfterReopen, EarliestAt, At, Percent, Candidates;
    var target, stop, atr := TargetOf(path, entry), StopOf(path, entry, pct), ExitOf(FirstExecutable(triggers));
    if Candidates(target, stop, atr) == [] {
      NoCandidates(target, stop, atr);
    } else {
      EarliestBounds(target, stop, atr);
      AtCandidates(target, stop, atr, EarliestAt(Candidates(target, stop, atr)));
    }
  }

  lemma {:induction false} NoCandidates(target: Option<Quote>, stop: Option<Quote>, atr: Option<Quote>)
    ensures Candidates(target, stop, atr) == [] <==> target.None? && stop.None? && atr.None?
  {
  }

  /** A stop that counts says whether the target was still reached afterwards. */
  lemma {:induction false} RecoveryMeans(
      entry: real, pct: real, path: seq<Quote>, triggers: seq<Trigger>, halts: seq<Window>, complete: bool)
    requires InOrder(path) && EvaluateStop(entry, pct, path, triggers, halts, complete).rule == Stop
    ensures var r := EvaluateStop(entry, pct, path, triggers, halts, complete);
      r.recovered == if TargetOf(path, entry).Some? then Some(true) else if complete then Some(false) else None
  {
    hide StopOf, FirstExecutable, AfterReopen, EarliestAt, At, Percent, Candidates;
    LeaderExits(entry, pct, path, triggers, halts, complete);
  }

  // ---------------------------------------------------------------- widening the stop

  lemma {:induction false} WiderStopPrice(entry: real, tight: real, wide: real)
    requires entry > 0.0 && tight <= wide
    ensures StopPrice(entry, wide) <= StopPrice(entry, tight)
  {
    assert entry * ((1.0 - tight / 100.0) - (1.0 - wide / 100.0)) >= 0.0;
  }

  lemma {:induction false} WiderStopIsLater(entry: real, tight: real, wide: real, path: seq<Quote>)
    requires entry > 0.0 && tight <= wide && InOrder(path)
    ensures var a, b := StopOf(path, entry, tight), StopOf(path, entry, wide);
      b.Some? ==> a.Some? && a.value.at <= b.value.at
  {
    hide StopPrice;
    WiderStopPrice(entry, tight, wide);
  }

  /** The first exit time among the candidates, answered or tied. */
  ghost predicate FirstAt(target: Option<Quote>, stop: Option<Quote>, atr: Option<Quote>, at: int) {
    Candidates(target, stop, atr) != [] && EarliestAt(Candidates(target, stop, atr)) == at
  }

  /** Widening the stop never makes the exit earlier: nothing the tighter stop could have done comes after. */
  lemma {:induction false} WideningNeverExitsEarlier(
      entry: real, tight: real, wide: real, path: seq<Quote>, triggers: seq<Trigger>, halts: seq<Window>,
      complete: bool)
    requires entry > 0.0 && tight <= wide && InOrder(path)
    ensures var a, b := EvaluateStop(entry, tight, path, triggers, halts, complete),
      EvaluateStop(entry, wide, path, triggers, halts, complete);
      var target, atr := TargetOf(path, entry), ExitOf(FirstExecutable(triggers));
      && (a.exit.Some? && b.exit.Some? ==> a.exit.value.at <= b.exit.value.at)
      && (b.exit.Some? ==> exists at :: at <= b.exit.value.at && FirstAt(target, StopOf(path, entry, tight), atr, at))
  {
    hide EvaluateStop, TargetOf, StopOf, FirstExecutable, EarliestAt, Candidates;
    LeaderExits(entry, tight, path, triggers, halts, complete);
    LeaderExits(entry, wide, path, triggers, halts, complete);
    WiderStopIsLater(entry, tight, wide, path);
    var target, stop, atr := TargetOf(path, entry), StopOf(path, entry, tight), ExitOf(FirstExecutable(triggers));
    NoCandidates(target, stop, atr);
    if Candidates(target, stop, atr) != [] {
      EarliestBounds(target, stop, atr);
      assert FirstAt(target, stop, atr, EarliestAt(Candidates(target, stop, atr)));
    }
  }

  /** A target or ATR exit stays the same exit for every wider stop. */
  lemma {:induction false} OtherExitsStay(
      entry: real, tight: real, wide: real, path: seq<Quote>, triggers: seq<Trigger>, halts: seq<Window>,
      complete: bool)
    requires entry > 0.0 && tight <= wide && InOrder(path)
    requires EvaluateStop(entry, tight, path, triggers, halts, complete).rule == Target
          || EvaluateStop(entry, tight, path, triggers, halts, complete).rule == Atr
    ensures var a, b := EvaluateStop(entry, tight, path, triggers, halts, complete),
      EvaluateStop(entry, wide, path, triggers, halts, complete);
      a.rule == b.rule && a.exit == b.exit && a.returnPct == b.returnPct
  {
    hide TargetOf, StopOf, FirstExecutable, AfterReopen, EarliestAt, At, Percent, Candidates;
    LeaderExits(entry, tight, path, triggers, halts, complete);
    LeaderExits(entry, wide, path, triggers, halts, complete);
    WiderStopIsLater(entry, tight, wide, path);
  }

  /** A result that changes was a stop, or a tie with one. */
  lemma {:induction false} OnlyStopsMove(entry: real, tight: real, wide: real, path: seq<Quote>, triggers: seq<Trigger>,
                      halts: seq<Window>, complete: bool)
    requires entry > 0.0 && tight <= wide && InOrder(path)
    requires EvaluateStop(entry, tight, path, triggers, halts, complete).exit
      != EvaluateStop(entry, wide, path, triggers, halts, complete).exit
    ensures var stop := StopOf(path, entry, tight);
      && stop.Some?
      && FirstAt(TargetOf(path, entry), stop, ExitOf(FirstExecutable(triggers)), stop.value.at)
  {
    hide EvaluateStop, TargetOf, StopOf, FirstExecutable, EarliestAt, Candidates;
    LeaderExits(entry, tight, path, triggers, halts, complete);
    LeaderExits(entry, wide, path, triggers, halts, complete);
    WiderStopIsLater(entry, tight, wide, path);
    var target, stop, atr := TargetOf(path, entry), StopOf(path, entry, tight), ExitOf(FirstExecutable(triggers));
    NoCandidates(target, stop, atr);
    if Candidates(target, stop, atr) != [] { EarliestBounds(target, stop, atr); }
  }
}
