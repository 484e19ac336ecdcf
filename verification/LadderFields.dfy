/** What the trailing floor does, in prices: which quote arms, which bid sells and what the result says. */
module LadderFields {
  import opened Wrappers
  import opened Arithmetic
  import opened Halts
  import opened FloorLadder

  // ---------------------------------------------------------------- the meaning

  /** A quote before the close that bids five percent or more over the entry. */
  predicate UpFive(q: Quote, entry: real, close: int) { q.at < close && q.bid >= 1.05 * entry }

  ghost predicate FirstUp(path: seq<Quote>, k: int, entry: real, close: int) {
    0 <= k < |path| && UpFive(path[k], entry, close) && forall j :: 0 <= j < k ==> !UpFive(path[j], entry, close)
  }

  predicate InMinute(q: Quote, minute: int) { minute <= q.at < minute + 60_000_000 }

  /** Quote k is the last one of the minute. */
  ghost predicate Closes(path: seq<Quote>, k: int, minute: int) {
    0 <= k < |path| && InMinute(path[k], minute) && forall j :: k < j < |path| ==> !InMinute(path[j], minute)
  }

  /** No halt reaches into the minute, and its last quote k bids five percent or more over the entry. */
  ghost predicate ClosesUp(path: seq<Quote>, k: int, minute: int, entry: real, halts: seq<Window>) {
    && Closes(path, k, minute) && path[k].bid >= 1.05 * entry
    && forall w :: w in halts ==> minute + 60_000_000 <= w.lastPrint || w.reopen <= minute
  }

  /** A whole minute that starts before the close and no earlier than the minute of the first quote. */
  predicate Examined(path: seq<Quote>, minute: int, close: int) {
    path != [] && minute % 60_000_000 == 0 && path[0].at < minute + 60_000_000 && minute < close
  }

  ghost predicate FirstMinuteUp(
      path: seq<Quote>, k: int, minute: int, entry: real, close: int, halts: seq<Window>)
  {
    && Examined(path, minute, close) && ClosesUp(path, k, minute, entry, halts)
    && forall m, j :: Examined(path, m, close) && m < minute ==> !ClosesUp(path, j, m, entry, halts)
  }

  /** The ladder arms: on touch at the first quote five percent up, otherwise at the end of the first whole minute that
      closes there. */
  ghost predicate ArmsAt(arm: Arm, mode: Mode, path: seq<Quote>, entry: real, close: int, halts: seq<Window>) {
    if mode == Touch then exists k :: FirstUp(path, k, entry, close) && arm == Arm(path[k].at, path[k].bid)
    else
      exists k, minute ::
        FirstMinuteUp(path, k, minute, entry, close, halts) && arm == Arm(minute + 60_000_000, path[k].bid)
  }

  ghost predicate NothingArms(mode: Mode, path: seq<Quote>, entry: real, close: int, halts: seq<Window>) {
    if mode == Touch then forall q :: q in path ==> !UpFive(q, entry, close)
    else forall minute, k :: Examined(path, minute, close) ==> !ClosesUp(path, k, minute, entry, halts)
  }

  predicate Follows(q: Quote, arm: Arm, close: int) { arm.at <= q.at < close }

  /** The greatest of the arming price and the bids that follow it among the first n quotes. */
  function TopBid(path: seq<Quote>, n: nat, arm: Arm, close: int): (top: real)
    requires n <= |path|
    ensures arm.price <= top && forall k :: 0 <= k < n && Follows(path[k], arm, close) ==> path[k].bid <= top
    ensures top == arm.price || exists k :: 0 <= k < n && Follows(path[k], arm, close) && path[k].bid == top
  {
    if n == 0 then arm.price
    else
      var before := TopBid(path, n - 1, arm, close);
      if Follows(path[n - 1], arm, close) && path[n - 1].bid > before then path[n - 1].bid else before
  }

  /** Quote i sells: its bid is at or under the initial floor, or the trail or more under the greatest bid so far. */
  predicate SellsAt(path: seq<Quote>, i: nat, arm: Arm, entry: real, close: int, rule: Rule)
    requires i < |path|
  {
    && Follows(path[i], arm, close)
    && (path[i].bid <= entry * (1.0 + rule.floor / 100.0)
        || path[i].bid <= TopBid(path, i + 1, arm, close) - entry * (rule.trail / 100.0))
  }

  ghost predicate FirstSold(path: seq<Quote>, i: nat, arm: Arm, entry: real, close: int, rule: Rule) {
    && i < |path| && SellsAt(path, i, arm, entry, close, rule)
    && forall k: nat :: k < i ==> !SellsAt(path, k, arm, entry, close, rule)
  }

  ghost predicate NeverSold(path: seq<Quote>, arm: Arm, entry: real, close: int, rule: Rule) {
    forall k: nat :: k < |path| ==> !SellsAt(path, k, arm, entry, close, rule)
  }

  /** The percentage by which the price lies over the entry. */
  predicate PctOver(pct: Option<real>, price: real, entry: real) {
    pct.Some? && (pct.value / 100.0 + 1.0) * entry == price
  }

  /** The result says: sold at that time and bid, after that high. */
  predicate Reports(r: ExitResult, at: int, bid: real, high: real, entry: real) {
    && r.exitAt == Some(at) && r.exitPrice == Some(bid)
    && PctOver(r.returnPct, bid, entry) && PctOver(r.highPct, high, entry)
    && r.giveback == Some(r.highPct.value - r.returnPct.value)
  }

  predicate Blank(r: ExitResult) {
    && r.outcome == Unanswerable && r.exitAt.None? && r.exitPrice.None?
    && r.returnPct.None? && r.highPct.None? && r.giveback.None?
  }

  /** Armed: the first selling quote, otherwise the quote at ten, otherwise no answer. */
  ghost predicate ArmedReport(
      r: ExitResult, path: seq<Quote>, arm: Arm, entry: real, close: int, ten: Option<Quote>, rule: Rule)
  {
    && r.armedAt == Some(arm.at)
    && match r.outcome
       case FloorExit =>
         exists i: nat :: FirstSold(path, i, arm, entry, close, rule)
           && Reports(r, path[i].at, path[i].bid, TopBid(path, i + 1, arm, close), entry)
       case AtTen =>
         && NeverSold(path, arm, entry, close, rule) && ten.Some?
         && Reports(r, ten.value.at, ten.value.bid, TopBid(path, |path|, arm, close), entry)
       case Unanswerable => NeverSold(path, arm, entry, close, rule) && ten.None? && Blank(r)
       case NotArmed => false
  }

  /** The greatest bid before the close. */
  ghost predicate TopIs(top: real, path: seq<Quote>, close: int) {
    && (exists q :: q in path && q.at < close && q.bid == top)
    && forall q :: q in path && q.at < close ==> q.bid <= top
  }

  /** That bid in percent. */
  ghost predicate TopBefore(pct: Option<real>, path: seq<Quote>, entry: real, close: int) {
    if pct.None? then forall q :: q in path ==> q.at >= close
    else exists top :: TopIs(top, path, close) && PctOver(pct, top, entry)
  }

  ghost predicate UnarmedReport(r: ExitResult, path: seq<Quote>, entry: real, close: int, ten: Option<Quote>) {
    && r.armedAt.None?
    && if ten.None? then Blank(r)
       else
         && r.outcome == NotArmed && r.exitAt == Some(ten.value.at) && r.exitPrice == Some(ten.value.bid)
         && PctOver(r.returnPct, ten.value.bid, entry) && TopBefore(r.highPct, path, entry, close) && r.giveback.None?
  }

  // ---------------------------------------------------------------- percentages

  lemma {:induction false} PctMeans(value: real, entry: real)
    requires entry > 0.0
    ensures PctOver(Some(Pct(value, entry)), value, entry) && Percent(value, entry) == Some(Pct(value, entry))
    ensures Pct(value, entry) >= TARGET_PCT <==> value >= 1.05 * entry
  {
    var q := value / entry;
    assert q * entry == value;
    if q >= 1.05 { assert (q - 1.05) * entry >= 0.0; } else { assert (1.05 - q) * entry > 0.0; }
  }

  lemma {:induction false} PctOrder(a: real, b: real, entry: real)
    requires entry > 0.0
    ensures Pct(a, entry) >= Pct(b, entry) <==> a >= b
  {
    var x, y := a / entry, b / entry;
    assert x * entry == a && y * entry == b;
    if x >= y { assert (x - y) * entry >= 0.0; } else { assert (y - x) * entry > 0.0; }
  }

  lemma {:induction false} FloorMeans(entry: real, high: real, top: real, rule: Rule, bid: real)
    requires entry > 0.0 && PctOver(Some(high), top, entry)
    ensures bid <= FloorPrice(entry, FloorPct(high, rule)) <==>
      bid <= entry * (1.0 + rule.floor / 100.0) || bid <= top - entry * (rule.trail / 100.0)
  {
    TrailPrice(entry, high, top, rule.trail);
    if rule.floor >= high - rule.trail {
      HigherFloorPrice(entry, high - rule.trail, rule.floor);
    } else {
      HigherFloorPrice(entry, rule.floor, high - rule.trail);
    }
  }

  lemma {:induction false} TrailPrice(entry: real, high: real, top: real, trail: real)
    requires PctOver(Some(high), top, entry)
    ensures FloorPrice(entry, high - trail) == top - entry * (trail / 100.0)
  {
    assert 1.0 + (high - trail) / 100.0 == (high / 100.0 + 1.0) - trail / 100.0;
    assert entry * ((high / 100.0 + 1.0) - trail / 100.0) == entry * (high / 100.0 + 1.0) - entry * (trail / 100.0);
  }

  // ---------------------------------------------------------------- arming

  lemma {:induction false} TouchInFields(path: seq<Quote>, entry: real, close: int)
    requires entry > 0.0
    ensures var arm := TouchArm(path, entry, close);
      && (arm.None? ==> forall q :: q in path ==> !UpFive(q, entry, close))
      && (arm.Some? ==> exists k :: FirstUp(path, k, entry, close) && arm.value == Arm(path[k].at, path[k].bid))
  {
    hide Pct;
    if path != [] {
      var rest := path[1..];
      assert path == [path[0]] + rest;
      PctMeans(path[0].bid, entry);
      if Touches(path[0], entry, close) {
        assert FirstUp(path, 0, entry, close);
      } else {
        TouchInFields(rest, entry, close);
        if TouchArm(path, entry, close).Some? {
          var k :| FirstUp(rest, k, entry, close) && TouchArm(path, entry, close).value == Arm(rest[k].at, rest[k].bid);
          FirstUpShifts(path, k, entry, close);
        }
      }
    }
  }

  lemma {:induction false} FirstUpShifts(path: seq<Quote>, k: int, entry: real, close: int)
    requires path != [] && !UpFive(path[0], entry, close) && FirstUp(path[1..], k, entry, close)
    ensures FirstUp(path, k + 1, entry, close)
  {
    hide UpFive;
    forall j | 0 < j < k + 1 ensures !UpFive(path[j], entry, close) { assert path[j] == path[1..][j - 1]; }
  }

  lemma {:induction false} LastMeans(path: seq<Quote>, minute: int)
    ensures var last := MinuteLast(path, minute);
      && (last.None? ==> forall q :: q in path ==> !InMinute(q, minute))
      && (last.Some? ==> exists k :: 0 <= k < |path| && Closes(path, k, minute) && path[k] == last.value)
  {
    hide Closes;
    if path != [] {
      var n := |path| - 1;
      var front, last := path[..n], MinuteLast(path, minute);
      assert path == front + [path[n]];
      if InMinute(path[n], minute) {
        LastCloses(path, minute);
      } else {
        LastMeans(front, minute);
        if last.Some? {
          var k :| 0 <= k < |front| && Closes(front, k, minute) && front[k] == last.value;
          CloserStays(front, path[n], k, minute);
        }
      }
    }
  }

  lemma {:induction false} LastCloses(path: seq<Quote>, minute: int)
    requires path != [] && InMinute(path[|path| - 1], minute)
    ensures Closes(path, |path| - 1, minute)
  {
  }

  lemma {:induction false} CloserStays(front: seq<Quote>, q: Quote, k: int, minute: int)
    requires Closes(front, k, minute) && !InMinute(q, minute)
    ensures Closes(front + [q], k, minute)
  {
    hide InMinute;
  }

  lemma {:induction false} HaltedMeans(minute: int, halts: seq<Window>)
    ensures !HaltedMinute(minute, halts) <==>
      forall w :: w in halts ==> minute + 60_000_000 <= w.lastPrint || w.reopen <= minute
  {
  }

  lemma {:induction false} OneCloser(path: seq<Quote>, j: int, k: int, minute: int)
    requires Closes(path, j, minute) && Closes(path, k, minute)
    ensures j == k
  {
  }

  ghost predicate ClosingBid(path: seq<Quote>, minute: int, entry: real, halts: seq<Window>, bid: real) {
    exists k :: ClosesUp(path, k, minute, entry, halts) && path[k].bid == bid
  }

  lemma {:induction false} ArmsMeans(minute: int, path: seq<Quote>, entry: real, halts: seq<Window>)
    requires entry > 0.0
    ensures ArmsOn(minute, path, entry, halts) ==>
      MinuteLast(path, minute).Some? && ClosingBid(path, minute, entry, halts, MinuteLast(path, minute).value.bid)
    ensures (exists k :: ClosesUp(path, k, minute, entry, halts)) ==> ArmsOn(minute, path, entry, halts)
  {
    hide MinuteLast, Closes, HaltedMinute, InMinute, Percent;
    var last := MinuteLast(path, minute);
    LastMeans(path, minute);
    HaltedMeans(minute, halts);
    if last.Some? {
      PctMeans(last.value.bid, entry);
      var k :| 0 <= k < |path| && Closes(path, k, minute) && path[k] == last.value;
      assert ArmsOn(minute, path, entry, halts) ==> ClosesUp(path, k, minute, entry, halts);
      forall j | ClosesUp(path, j, minute, entry, halts) ensures j == k { OneCloser(path, j, k, minute); }
    } else {
      forall j ensures !ClosesUp(path, j, minute, entry, halts) { NoCloser(path, j, minute); }
    }
  }

  lemma {:induction false} NoCloser(path: seq<Quote>, j: int, minute: int)
    requires forall q :: q in path ==> !InMinute(q, minute)
    ensures !Closes(path, j, minute)
  {
  }

  /** The minutes the loop visits. */
  lemma {:induction false} VisitedMeans(path: seq<Quote>, minute: int, close: int)
    ensures Examined(path, minute, close) <==>
      path != [] && MinuteFrom(FirstMinute(path, close), minute) && minute < close
  {
    if path != [] {
      var first := FirstMinute(path, close);
      assert first % MINUTE == 0 && first <= path[0].at < first + MINUTE;
      assert (minute - first) % MINUTE == 0 <==> minute % MINUTE == 0;
    }
  }

  lemma {:induction false} MinuteInFields(path: seq<Quote>, entry: real, close: int, halts: seq<Window>)
    requires entry > 0.0
    ensures ArmOf(MinuteClose, path, entry, close, halts).None? ==> NothingArms(MinuteClose, path, entry, close, halts)
    ensures ArmOf(MinuteClose, path, entry, close, halts).Some? ==>
      ArmsAt(ArmOf(MinuteClose, path, entry, close, halts).value, MinuteClose, path, entry, close, halts)
  {
    hide ArmsOn, ClosesUp, Examined, MinuteFrom, MinuteArmFrom, MinuteLast, ClosingBid;
    var first, r := FirstMinute(path, close), ArmOf(MinuteClose, path, entry, close, halts);
    MinuteArmIsFirst(first, path, entry, close, halts);
    var bound := if r.Some? then r.value.at - 60_000_000 else close;
    forall m: int, j: int | Examined(path, m, close) && m < bound ensures !ClosesUp(path, j, m, entry, halts) {
      VisitedMeans(path, m, close);
      ArmsMeans(m, path, entry, halts);
    }
    if r.Some? {
      ArmsMeans(bound, path, entry, halts);
      FirstClosing(path, bound, entry, close, halts, r.value.price);
    } else {
      forall m | Examined(path, m, close) ensures m < bound { VisitedMeans(path, m, close); }
    }
  }

  lemma {:induction false} FirstClosing(
      path: seq<Quote>, minute: int, entry: real, close: int, halts: seq<Window>, bid: real)
    requires ClosingBid(path, minute, entry, halts, bid)
    requires MinuteFrom(FirstMinute(path, close), minute) && minute < close
    requires forall m: int, j: int :: Examined(path, m, close) && m < minute ==> !ClosesUp(path, j, m, entry, halts)
    ensures ArmsAt(Arm(minute + 60_000_000, bid), MinuteClose, path, entry, close, halts)
  {
    hide MinuteFrom, FirstMinute, Examined;
    var k :| ClosesUp(path, k, minute, entry, halts) && path[k].bid == bid;
    VisitedMeans(path, minute, close);
    assert FirstMinuteUp(path, k, minute, entry, close, halts);
  }

  lemma {:induction false} ArmInFields(mode: Mode, path: seq<Quote>, entry: real, close: int, halts: seq<Window>)
    requires entry > 0.0
    ensures var arm := ArmOf(mode, path, entry, close, halts);
      && (arm.None? ==> NothingArms(mode, path, entry, close, halts))
      && (arm.Some? ==> ArmsAt(arm.value, mode, path, entry, close, halts))
  {
    hide TouchArm, MinuteArmFrom, UpFive;
    if mode == Touch { TouchInFields(path, entry, close); } else { MinuteInFields(path, entry, close, halts); }
  }

  // ---------------------------------------------------------------- the floor

  lemma {:induction false} HighMeans(path: seq<Quote>, n: nat, arm: Arm, close: int, entry: real)
    requires n <= |path| && entry > 0.0
    ensures High(path, n, arm, close, entry) == Pct(TopBid(path, n, arm, close), entry)
  {
    hide Pct;
    if n > 0 {
      HighMeans(path, n - 1, arm, close, entry);
      PctOrder(TopBid(path, n - 1, arm, close), path[n - 1].bid, entry);
      PctOrder(path[n - 1].bid, TopBid(path, n - 1, arm, close), entry);
    }
  }

  /** A quote sells exactly when its bid is at or under the initial floor or far enough under the greatest bid. */
  lemma {:induction false} SaleInFields(path: seq<Quote>, i: nat, arm: Arm, entry: real, close: int, rule: Rule)
    requires i < |path| && entry > 0.0
    ensures Sells(path, i, arm, close, entry, rule) <==> SellsAt(path, i, arm, entry, close, rule)
  {
    hide High, TopBid, Pct, FloorPrice, FloorPct, PctOver;
    HighMeans(path, i + 1, arm, close, entry);
    PctMeans(TopBid(path, i + 1, arm, close), entry);
    FloorMeans(entry, High(path, i + 1, arm, close, entry), TopBid(path, i + 1, arm, close), rule, path[i].bid);
  }

  lemma {:induction false} ArmedInFields(
      path: seq<Quote>, arm: Arm, entry: real, close: int, ten: Option<Quote>, rule: Rule)
    requires entry > 0.0
    ensures ArmedReport(ArmedResult(path, arm, entry, close, ten, rule), path, arm, entry, close, ten, rule)
  {
    hide Sells, SellsAt, High, TopBid, Pct, PctOver;
    var sale := FirstSale(path, 0, arm, close, entry, rule);
    forall k: nat | k < |path|
      ensures Sells(path, k, arm, close, entry, rule) <==> SellsAt(path, k, arm, entry, close, rule)
    {
      SaleInFields(path, k, arm, entry, close, rule);
    }
    if sale.Some? {
      var i := sale.value;
      assert FirstSold(path, i, arm, entry, close, rule);
      HighMeans(path, i + 1, arm, close, entry);
      PctMeans(TopBid(path, i + 1, arm, close), entry);
      PctMeans(path[i].bid, entry);
    } else if ten.Some? {
      HighMeans(path, |path|, arm, close, entry);
      PctMeans(TopBid(path, |path|, arm, close), entry);
      PctMeans(ten.value.bid, entry);
    }
  }

  // ---------------------------------------------------------------- the ladder

  lemma {:induction false} HighestMeans(path: seq<Quote>, close: int, entry: real)
    requires entry > 0.0
    ensures TopBefore(HighestPct(path, close, entry), path, entry, close)
  {
    hide PctOver, Percent, TopIs;
    if path != [] {
      var front, q := path[..|path| - 1], path[|path| - 1];
      var rest := HighestPct(front, close, entry);
      HighestMeans(front, close, entry);
      assert path == front + [q];
      PctMeans(q.bid, entry);
      if q.at >= close {
        LateQuote(front, q, close);
      } else if rest.Some? {
        var top :| TopIs(top, front, close) && PctOver(rest, top, entry);
        GreaterPct(rest.value, top, q.bid, entry);
        TopNext(front, q, top, close);
      } else {
        assert TopIs(q.bid, path, close) by { OnlyQuote(front, q, close); }
      }
    }
  }

  lemma {:induction false} LateQuote(front: seq<Quote>, q: Quote, close: int)
    requires q.at >= close
    ensures forall top :: TopIs(top, front, close) ==> TopIs(top, front + [q], close)
  {
  }

  lemma {:induction false} OnlyQuote(front: seq<Quote>, q: Quote, close: int)
    requires q.at < close && forall x :: x in front ==> x.at >= close
    ensures TopIs(q.bid, front + [q], close)
  {
    assert q in front + [q];
  }

  lemma {:induction false} TopNext(front: seq<Quote>, q: Quote, top: real, close: int)
    requires q.at < close && TopIs(top, front, close)
    ensures TopIs(if top >= q.bid then top else q.bid, front + [q], close)
  {
    var x :| x in front && x.at < close && x.bid == top;
    assert x in front + [q] && q in front + [q];
  }

  lemma {:induction false} GreaterPct(pct: real, top: real, bid: real, entry: real)
    requires entry > 0.0 && PctOver(Some(pct), top, entry)
    ensures PctOver(Some(Max(pct, Pct(bid, entry))), if top >= bid then top else bid, entry)
  {
    PctMeans(bid, entry);
    PctOrder(top, bid, entry);
    PctMeans(top, entry);
    SamePct(pct, Pct(top, entry), entry);
  }

  lemma {:induction false} SamePct(a: real, b: real, entry: real)
    requires entry > 0.0 && (a / 100.0 + 1.0) * entry == (b / 100.0 + 1.0) * entry
    ensures a == b
  {
    var d := a / 100.0 - b / 100.0;
    assert d * entry == 0.0;
  }

  lemma {:induction false} UnarmedInFields(path: seq<Quote>, entry: real, close: int, ten: Option<Quote>)
    requires entry > 0.0
    ensures UnarmedReport(NotArmedResult(path, entry, close, ten), path, entry, close, ten)
  {
    hide HighestPct, TopBefore;
    HighestMeans(path, close, entry);
    if ten.Some? { PctMeans(ten.value.bid, entry); }
  }

  /** The ladder over a positive entry price: armed as the mode says, then the first bid at or under the trailing floor,
      or the quote at ten. */
  lemma {:induction false} LadderInFields(
      path: seq<Quote>, entry: real, close: int, ten: Option<Quote>, rule: Rule, mode: Mode, halts: seq<Window>)
    requires entry > 0.0
    ensures var r := Ladder(path, entry, close, ten, rule, mode, halts);
      || (NothingArms(mode, path, entry, close, halts) && UnarmedReport(r, path, entry, close, ten))
      || exists arm :: ArmsAt(arm, mode, path, entry, close, halts)
           && ArmedReport(r, path, arm, entry, close, ten, rule)
  {
    hide ArmedReport, UnarmedReport, ArmedResult, NotArmedResult, ArmOf, ArmsAt, NothingArms;
    ArmInFields(mode, path, entry, close, halts);
    var arm := ArmOf(mode, path, entry, close, halts);
    if arm.Some? {
      ArmedInFields(path, arm.value, entry, close, ten, rule);
    } else {
      UnarmedInFields(path, entry, close, ten);
    }
  }
}
