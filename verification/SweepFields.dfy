/** What one stop of the sweep does, in prices and times: the first quote at each level, the race between them and what
    the result says. */
module SweepFields {
  import opened Wrappers
  import opened Arithmetic
  import opened Halts
  import opened StopSweep

  // ---------------------------------------------------------------- the meaning

  /** The first quote five percent or more over the entry. */
  ghost predicate FirstUp(q: Quote, path: seq<Quote>, entry: real) {
    exists k :: 0 <= k < |path| && path[k] == q && q.bid >= 1.05 * entry
      && forall j :: 0 <= j < k ==> path[j].bid < 1.05 * entry
  }

  ghost predicate NeverUp(path: seq<Quote>, entry: real) { forall q :: q in path ==> q.bid < 1.05 * entry }

  /** The bid lost at least the percentage of the entry. */
  predicate Lost(q: Quote, entry: real, pct: real) { q.bid <= entry - entry * (pct / 100.0) }

  /** The first quote that lost at least the percentage. */
  ghost predicate FirstLost(q: Quote, path: seq<Quote>, entry: real, pct: real) {
    exists k :: 0 <= k < |path| && path[k] == q && Lost(q, entry, pct)
      && forall j :: 0 <= j < k ==> !Lost(path[j], entry, pct)
  }

  ghost predicate NeverLost(path: seq<Quote>, entry: real, pct: real) {
    forall q :: q in path ==> !Lost(q, entry, pct)
  }

  /** The first trigger with a quote to sell at. */
  ghost predicate FirstSellable(t: Trigger, triggers: seq<Trigger>) {
    exists k :: 0 <= k < |triggers| && triggers[k] == t && t.exit.Some?
      && forall j :: 0 <= j < k ==> triggers[j].exit.None?
  }

  ghost predicate NoneSellable(triggers: seq<Trigger>) { forall t :: t in triggers ==> t.exit.None? }

  /** The exits the result names are the first quote at each level and the first trigger that can sell. */
  ghost predicate NamesExits(r: StopResult, entry: real, pct: real, path: seq<Quote>, triggers: seq<Trigger>) {
    && (if r.target.Some? then FirstUp(r.target.value, path, entry) else NeverUp(path, entry))
    && (if r.stop.Some? then FirstLost(r.stop.value, path, entry, pct) else NeverLost(path, entry, pct))
    && (if SellOf(r).Some? then FirstSellable(r.atr.value, triggers) else NoneSellable(triggers))
  }

  function SellOf(r: StopResult): Option<Quote> { if r.atr.None? then None else r.atr.value.exit }

  /** a comes before b, if b comes at all. */
  predicate Before(a: Option<Quote>, b: Option<Quote>) { a.Some? && (b.Some? ==> a.value.at < b.value.at) }

  /** The earliest of the three exits counts; none counts when two share the earliest time. */
  predicate Decides(r: StopResult) {
    match r.rule
    case Target => Before(r.target, r.stop) && Before(r.target, SellOf(r)) && r.exit == r.target
    case Stop => Before(r.stop, r.target) && Before(r.stop, SellOf(r)) && r.exit == r.stop
    case Atr => Before(SellOf(r), r.target) && Before(SellOf(r), r.stop) && r.exit == SellOf(r)
    case Unanswerable =>
      && !(Before(r.target, r.stop) && Before(r.target, SellOf(r)))
      && !(Before(r.stop, r.target) && Before(r.stop, SellOf(r)))
      && !(Before(SellOf(r), r.target) && Before(SellOf(r), r.stop))
      && r.exit == None && r.returnPct == None
  }

  /** The return of an exit is its bid over the entry less one, in percent. */
  predicate ReturnOf(r: StopResult, entry: real) {
    r.exit.Some? ==> r.returnPct.Some? && (r.returnPct.value / 100.0 + 1.0) * entry == r.exit.value.bid
  }

  ghost predicate UpAfter(path: seq<Quote>, entry: real, at: int) {
    exists q :: q in path && q.at > at && q.bid >= 1.05 * entry
  }

  /** A stop that counts recovered when a later quote is five percent up; without one an incomplete path leaves it
      open. */
  ghost predicate RecoveryOf(r: StopResult, entry: real, path: seq<Quote>, complete: bool) {
    if r.rule != Stop then r.recovered == None
    else if r.exit.None? then false
    else if UpAfter(path, entry, r.exit.value.at) then r.recovered == Some(true)
    else r.recovered == if complete then Some(false) else None
  }

  /** The first quote from the time on. */
  ghost predicate FirstSince(q: Quote, path: seq<Quote>, at: int) {
    exists k :: 0 <= k < |path| && path[k] == q && q.at >= at && forall j :: 0 <= j < k ==> path[j].at < at
  }

  /** The stop was sold at the time of the first quote after some halt reopened. */
  ghost predicate SoldOnReopen(r: StopResult, path: seq<Quote>, halts: seq<Window>) {
    r.rule == Stop && r.exit.Some?
    && exists w, q :: w in halts && FirstSince(q, path, w.reopen) && q.at == r.exit.value.at
  }

  predicate AnswersOf(r: StopResult, complete: bool) {
    && r.targetAnswerable == (r.target.Some? || complete)
    && r.stopAnswerable == (r.stop.Some? || complete)
  }

  // ---------------------------------------------------------------- the first of each

  lemma {:induction false} AtLeastInFields(path: seq<Quote>, price: real)
    ensures var r := FirstAtLeast(path, price);
      r.Some? ==> exists k ::
        0 <= k < |path| && path[k] == r.value && r.value.bid >= price && forall j :: 0 <= j < k ==> path[j].bid < price
  {
    if path != [] && path[0].bid < price {
      AtLeastInFields(path[1..], price);
      var r := FirstAtLeast(path, price);
      if r.Some? {
        var k :| 0 <= k < |path[1..]| && path[1..][k] == r.value && forall j :: 0 <= j < k ==> path[1..][j].bid < price;
        assert path[k + 1] == r.value;
        forall j | 0 <= j < k + 1 ensures path[j].bid < price { if j > 0 { assert path[j] == path[1..][j - 1]; } }
      }
    }
  }

  lemma {:induction false} AtMostInFields(path: seq<Quote>, price: real)
    ensures var r := FirstAtMost(path, price);
      r.Some? ==> exists k ::
        0 <= k < |path| && path[k] == r.value && r.value.bid <= price && forall j :: 0 <= j < k ==> path[j].bid > price
  {
    if path != [] && path[0].bid > price {
      AtMostInFields(path[1..], price);
      var r := FirstAtMost(path, price);
      if r.Some? {
        var k :| 0 <= k < |path[1..]| && path[1..][k] == r.value && forall j :: 0 <= j < k ==> path[1..][j].bid > price;
        assert path[k + 1] == r.value;
        forall j | 0 <= j < k + 1 ensures path[j].bid > price { if j > 0 { assert path[j] == path[1..][j - 1]; } }
      }
    }
  }

  lemma {:induction false} SinceInFields(path: seq<Quote>, at: int)
    ensures FirstFrom(path, at).Some? ==> FirstSince(FirstFrom(path, at).value, path, at)
    ensures forall q, p :: FirstSince(q, path, at) && FirstSince(p, path, at) ==> q == p
  {
    if path != [] && path[0].at < at {
      SinceInFields(path[1..], at);
      var r := FirstFrom(path, at);
      if r.Some? {
        var k :| 0 <= k < |path[1..]| && path[1..][k] == r.value && forall j :: 0 <= j < k ==> path[1..][j].at < at;
        assert path[k + 1] == r.value;
        forall j | 0 <= j < k + 1 ensures path[j].at < at { if j > 0 { assert path[j] == path[1..][j - 1]; } }
      }
    }
  }

  lemma {:induction false} SellableInFields(triggers: seq<Trigger>)
    ensures FirstExecutable(triggers).Some? ==> FirstSellable(FirstExecutable(triggers).value, triggers)
  {
    var t := FirstExecutable(triggers);
    if triggers != [] && triggers[0].exit.None? {
      SellableInFields(triggers[1..]);
      if t.Some? {
        var k :| 0 <= k < |triggers[1..]| && triggers[1..][k] == t.value
          && forall j :: 0 <= j < k ==> triggers[1..][j].exit.None?;
        assert triggers[k + 1] == t.value;
        forall j | 0 <= j < k + 1 ensures triggers[j].exit.None? {
          if j > 0 { assert triggers[j] == triggers[1..][j - 1]; }
        }
      }
    }
  }

  lemma {:induction false} LevelsInFields(path: seq<Quote>, entry: real, pct: real)
    ensures var target, stop := TargetOf(path, entry), StopOf(path, entry, pct);
      && (if target.Some? then FirstUp(target.value, path, entry) else NeverUp(path, entry))
      && (if stop.Some? then FirstLost(stop.value, path, entry, pct) else NeverLost(path, entry, pct))
  {
    hide FirstAtLeast, FirstAtMost, StopPrice;
    AtLeastInFields(path, entry * 1.05);
    AtMostInFields(path, StopPrice(entry, pct));
    StopPriceMeans(entry, pct);
    forall q: Quote ensures Lost(q, entry, pct) <==> q.bid <= StopPrice(entry, pct) {}
    hide Lost;
  }

  lemma {:induction false} StopPriceMeans(entry: real, pct: real)
    ensures StopPrice(entry, pct) == entry - entry * (pct / 100.0)
  {
  }

  // ---------------------------------------------------------------- the result

  lemma {:induction false} ResultShape(
      entry: real, pct: real, path: seq<Quote>, triggers: seq<Trigger>, halts: seq<Window>, complete: bool)
    requires entry > 0.0
    ensures var r := EvaluateStop(entry, pct, path, triggers, halts, complete);
      && r.target == TargetOf(path, entry) && r.stop == StopOf(path, entry, pct)
      && SellOf(r) == ExitOf(FirstExecutable(triggers))
      && (SellOf(r).Some? ==> r.atr == FirstExecutable(triggers))
      && AnswersOf(r, complete)
      && (r.rule == Unanswerable ==> r.returnPct == None && r.recovered == None && !r.stopOnReopen)
      && (r.rule != Unanswerable ==>
           && r.exit.Some? && r.returnPct == Percent(r.exit.value.bid, entry)
           && r.stopOnReopen == (r.rule == Stop && AfterReopen(r.exit.value, path, halts))
           && RecoveryOf(r, entry, path, complete))
  {
    hide TargetOf, StopOf, AfterReopen, EarliestAt, Percent;
    var target, stop, atr := TargetOf(path, entry), StopOf(path, entry, pct), FirstExecutable(triggers);
    var cs := Candidates(target, stop, ExitOf(atr));
    NoCandidates(target, stop, ExitOf(atr));
    if cs != [] {
      var first := At(cs, EarliestAt(cs));
      if |first| == 1 {
        assert first[0] in cs;
        assert first[0].rule != Unanswerable;
      }
    }
  }

  lemma {:induction false} ReopenInFields(q: Quote, path: seq<Quote>, halts: seq<Window>)
    ensures AfterReopen(q, path, halts) <==>
      exists w, p :: w in halts && FirstSince(p, path, w.reopen) && p.at == q.at
  {
    hide FirstFrom, FirstSince;
    forall w: Window
      ensures FirstFrom(path, w.reopen).Some? ==> FirstSince(FirstFrom(path, w.reopen).value, path, w.reopen)
      ensures forall p :: FirstSince(p, path, w.reopen) ==> FirstFrom(path, w.reopen) == Some(p)
    {
      SinceInFields(path, w.reopen);
      forall p | FirstSince(p, path, w.reopen) ensures FirstFrom(path, w.reopen) == Some(p) {
        SinceIsReached(p, path, w.reopen);
      }
    }
    if AfterReopen(q, path, halts) {
      var w :| w in halts && FirstFrom(path, w.reopen).Some? && FirstFrom(path, w.reopen).value.at == q.at;
      assert FirstSince(FirstFrom(path, w.reopen).value, path, w.reopen);
    }
  }

  lemma {:induction false} SinceIsReached(q: Quote, path: seq<Quote>, at: int)
    requires FirstSince(q, path, at)
    ensures FirstFrom(path, at).Some?
  {
  }

  /** One stop of the sweep over a positive entry price: which exits it names, which of them counts and what it says. */
  lemma {:induction false} StopInFields(
      entry: real, pct: real, path: seq<Quote>, triggers: seq<Trigger>, halts: seq<Window>, complete: bool)
    requires entry > 0.0
    ensures var r := EvaluateStop(entry, pct, path, triggers, halts, complete);
      && NamesExits(r, entry, pct, path, triggers) && Decides(r) && ReturnOf(r, entry)
      && RecoveryOf(r, entry, path, complete) && AnswersOf(r, complete)
      && (r.stopOnReopen <==> SoldOnReopen(r, path, halts))
  {
    hide EvaluateStop, TargetOf, StopOf, FirstExecutable, FirstUp, FirstLost, AfterReopen, FirstSince, UpAfter,
      AnswersOf;
    var r := EvaluateStop(entry, pct, path, triggers, halts, complete);
    ResultShape(entry, pct, path, triggers, halts, complete);
    LevelsInFields(path, entry, pct);
    SellableInFields(triggers);
    LeaderExits(entry, pct, path, triggers, halts, complete);
    if r.exit.Some? {
      ReopenInFields(r.exit.value, path, halts);
      QuotientBack(r.exit.value.bid, entry);
    }
  }

  lemma {:induction false} QuotientBack(bid: real, entry: real)
    requires entry > 0.0
    ensures Percent(bid, entry).Some? && (Percent(bid, entry).value / 100.0 + 1.0) * entry == bid
  {
    assert bid / entry * entry == bid;
  }

  /** A trigger of a flip: its bar sold and closed, a minute after it opened, past the entry; it sells at the first
      quote from that close on. */
  lemma {:induction false} TriggerInFields(t: Trigger, sells: seq<(int, bool)>, path: seq<Quote>, entryAt: int)
    ensures Triggered(t, sells, path, entryAt) <==>
      && (t.barMinute, true) in sells && t.decisionAt == t.barMinute + 60_000_000 && t.decisionAt > entryAt
      && (if t.exit.Some? then FirstSince(t.exit.value, path, t.decisionAt)
          else forall q :: q in path ==> q.at < t.decisionAt)
  {
    hide FirstSince, FirstFrom;
    SinceInFields(path, t.decisionAt);
    if t.exit.Some? && FirstSince(t.exit.value, path, t.decisionAt) {
      SinceIsReached(t.exit.value, path, t.decisionAt);
    }
    if t.exit.None? && FirstFrom(path, t.decisionAt).Some? {
      assert FirstFrom(path, t.decisionAt).value in path;
    }
  }
}
