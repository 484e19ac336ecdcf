/** The trailing-floor exit of scripts/orb_exit_ladder_comparison.py: armed at +5% on touch or on a minute's
    close, then sold at the first bid at or under a floor that trails the high; and how the exit moves when
    the rule's parameters do. */
module FloorLadder {
  import opened Arithmetic
  import opened Wrappers
  import opened Halts

  const TARGET_PCT := 5.0

  datatype Quote = Quote(at: int, bid: real, ask: real)

  datatype Mode = Touch | MinuteClose

  datatype Rule = Rule(floor: real, trail: real)

  datatype Arm = Arm(at: int, price: real)

  datatype Outcome = Unanswerable | NotArmed | FloorExit | AtTen

  datatype ExitResult = ExitResult(
    outcome: Outcome, armedAt: Option<int>, exitAt: Option<int>, exitPrice: Option<real>,
    returnPct: Option<real>, highPct: Option<real>, giveback: Option<real>)

  /** Comparing a missing percentage with the target raises. */
  datatype Error = MissingPercent

  ghost predicate InOrder(path: seq<Quote>) {
    forall i, j :: 0 <= i < j < |path| ==> path[i].at <= path[j].at
  }

  function Pct(value: real, basis: real): real
    requires basis > 0.0
  {
    Percent(value, basis).value
  }

  // ---------------------------------------------------------------- arming

  predicate Touches(q: Quote, entry: real, close: int)
    requires entry > 0.0
  {
    q.at < close && Pct(q.bid, entry) >= TARGET_PCT
  }

  function TouchArm(path: seq<Quote>, entry: real, close: int): (r: Option<Arm>)
    requires entry > 0.0
    ensures r.None? ==> forall q :: q in path ==> !Touches(q, entry, close)
    ensures r.Some? ==> exists q :: q in path && Touches(q, entry, close) && r.value == Arm(q.at, q.bid)
    ensures r.Some? && InOrder(path) ==> forall q :: q in path && Touches(q, entry, close) ==> r.value.at <= q.at
  {
    if path == [] then None
    else if Touches(path[0], entry, close) then Some(Arm(path[0].at, path[0].bid))
    else TouchArm(path[1..], entry, close)
  }

  predicate HaltedMinute(minute: int, halts: seq<Window>) {
    exists w :: w in halts && w.lastPrint < minute + MINUTE && w.reopen > minute
  }

  /** The last quote of the minute. */
  function MinuteLast(path: seq<Quote>, minute: int): (r: Option<Quote>)
    ensures r.Some? ==> r.value in path && minute <= r.value.at < minute + MINUTE
  {
    if path == [] then None
    else if minute <= path[|path| - 1].at < minute + MINUTE then Some(path[|path| - 1])
    else MinuteLast(path[..|path| - 1], minute)
  }

  predicate ArmsOn(minute: int, path: seq<Quote>, entry: real, halts: seq<Window>) {
    && !HaltedMinute(minute, halts) && MinuteLast(path, minute).Some?
    && Percent(MinuteLast(path, minute).value.bid, entry).Some?
    && Percent(MinuteLast(path, minute).value.bid, entry).value >= TARGET_PCT
  }

  function MinuteArmFrom(minute: int, path: seq<Quote>, entry: real, close: int, halts: seq<Window>): (r: Option<Arm>)
    decreases close - minute
  {
    if minute >= close then None
    else if ArmsOn(minute, path, entry, halts) then Some(Arm(minute + MINUTE, MinuteLast(path, minute).value.bid))
    else MinuteArmFrom(minute + MINUTE, path, entry, close, halts)
  }

  function FirstMinute(path: seq<Quote>, close: int): int {
    if path == [] then close else path[0].at - path[0].at % MINUTE
  }

  predicate MinuteFrom(first: int, minute: int) { first <= minute && (minute - first) % MINUTE == 0 }

  /** r arms at the close of the first minute from `first` on that arms, or is none when no minute does. */
  ghost predicate FirstArm(first: int, path: seq<Quote>, entry: real, close: int, halts: seq<Window>, r: Option<Arm>) {
    && (r.Some? ==>
         var minute := r.value.at - MINUTE;
         && MinuteFrom(first, minute) && minute < close && ArmsOn(minute, path, entry, halts)
         && r.value.price == MinuteLast(path, minute).value.bid)
    && (forall minute :: MinuteFrom(first, minute) && minute < (if r.Some? then r.value.at - MINUTE else close) ==>
         !ArmsOn(minute, path, entry, halts))
  }

  lemma {:induction false} MinuteArmIsFirst(
      minute: int, path: seq<Quote>, entry: real, close: int, halts: seq<Window>)
    ensures FirstArm(minute, path, entry, close, halts, MinuteArmFrom(minute, path, entry, close, halts))
    decreases close - minute
  {
    hide ArmsOn, MinuteLast;
    if minute < close && !ArmsOn(minute, path, entry, halts) {
      MinuteArmIsFirst(minute + MINUTE, path, entry, close, halts);
      forall m | MinuteFrom(minute, m) && m != minute ensures MinuteFrom(minute + MINUTE, m) {}
    }
  }

  method MinuteCloseArm(path: seq<Quote>, entry: real, close: int, halts: seq<Window>) returns (r: Option<Arm>)
    ensures r == MinuteArmFrom(FirstMinute(path, close), path, entry, close, halts)
    ensures FirstArm(FirstMinute(path, close), path, entry, close, halts, r)
  {
    hide FirstArm;
    MinuteArmIsFirst(FirstMinute(path, close), path, entry, close, halts);
    var minute := FirstMinute(path, close);
    while minute < close
      invariant MinuteArmFrom(FirstMinute(path, close), path, entry, close, halts) ==
        MinuteArmFrom(minute, path, entry, close, halts)
      decreases close - minute
    {
      var boundary := minute + MINUTE;
      if HaltedMinute(minute, halts) {
        minute := boundary;
        continue;
      }
      var last := MinuteLast(path, minute);
      if last.Some? {
        var pct := Percent(last.value.bid, entry);
        if pct.Some? && pct.value >= TARGET_PCT { return Some(Arm(boundary, last.value.bid)); }
      }
      minute := boundary;
    }
    r := None;
  }

  // ---------------------------------------------------------------- the floor

  predicate Watched(q: Quote, armedAt: int, close: int) { armedAt <= q.at < close }

  /** The high after the first n quotes, starting from the arming price. */
  function High(path: seq<Quote>, n: nat, arm: Arm, close: int, entry: real): real
    requires n <= |path| && entry > 0.0
  {
    if n == 0 then Pct(arm.price, entry)
    else if Watched(path[n - 1], arm.at, close)
      then Max(High(path, n - 1, arm, close, entry), Pct(path[n - 1].bid, entry))
    else High(path, n - 1, arm, close, entry)
  }

  function FloorPct(high: real, rule: Rule): real { Max(rule.floor, high - rule.trail) }

  function FloorPrice(entry: real, pct: real): real { entry * (1.0 + pct / 100.0) }

  /** Quote i sells: it is at or under the floor trailing the high that includes it. */
  predicate Sells(path: seq<Quote>, i: nat, arm: Arm, close: int, entry: real, rule: Rule)
    requires i < |path| && entry > 0.0
  {
    && Watched(path[i], arm.at, close)
    && path[i].bid <= FloorPrice(entry, FloorPct(High(path, i + 1, arm, close, entry), rule))
  }

  function FirstSale(path: seq<Quote>, i: nat, arm: Arm, close: int, entry: real, rule: Rule): (r: Option<nat>)
    requires i <= |path| && entry > 0.0
    ensures r.Some? ==> i <= r.value < |path| && Sells(path, r.value, arm, close, entry, rule)
    ensures r.Some? ==> forall k :: i <= k < r.value ==> !Sells(path, k, arm, close, entry, rule)
    ensures r.None? ==> forall k :: i <= k < |path| ==> !Sells(path, k, arm, close, entry, rule)
    decreases |path| - i
  {
    if i == |path| then None
    else if Sells(path, i, arm, close, entry, rule) then Some(i)
    else FirstSale(path, i + 1, arm, close, entry, rule)
  }

  // ---------------------------------------------------------------- the ladder

  function NoAnswer(armedAt: Option<int>): ExitResult {
    ExitResult(Unanswerable, armedAt, None, None, None, None, None)
  }

  function HighestPct(path: seq<Quote>, close: int, entry: real): Option<real> {
    if path == [] || entry <= 0.0 then None
    else
      var q, rest := path[|path| - 1], HighestPct(path[..|path| - 1], close, entry);
      if q.at >= close then rest
      else if rest.None? then Percent(q.bid, entry)
      else Some(Max(rest.value, Pct(q.bid, entry)))
  }

  function NotArmedResult(path: seq<Quote>, entry: real, close: int, ten: Option<Quote>): ExitResult {
    if ten.None? then NoAnswer(None)
    else ExitResult(NotArmed, None, Some(ten.value.at), Some(ten.value.bid), Percent(ten.value.bid, entry),
                    HighestPct(path, close, entry), None)
  }

  function ArmedResult(path: seq<Quote>, arm: Arm, entry: real, close: int, ten: Option<Quote>, rule: Rule): ExitResult
    requires entry > 0.0
  {
    match FirstSale(path, 0, arm, close, entry, rule)
    case Some(i) =>
      var high, now := High(path, i + 1, arm, close, entry), Pct(path[i].bid, entry);
      ExitResult(FloorExit, Some(arm.at), Some(path[i].at), Some(path[i].bid), Some(now), Some(high), Some(high - now))
    case None =>
      if ten.None? then NoAnswer(Some(arm.at))
      else
        var high, now := High(path, |path|, arm, close, entry), Pct(ten.value.bid, entry);
        ExitResult(AtTen, Some(arm.at), Some(ten.value.at), Some(ten.value.bid), Some(now), Some(high),
          Some(high - now))
  }

  function ArmOf(mode: Mode, path: seq<Quote>, entry: real, close: int, halts: seq<Window>): Option<Arm>
    requires entry > 0.0
  {
    match mode
    case Touch => TouchArm(path, entry, close)
    case MinuteClose => MinuteArmFrom(FirstMinute(path, close), path, entry, close, halts)
  }

  function Ladder(
      path: seq<Quote>, entry: real, close: int, ten: Option<Quote>, rule: Rule, mode: Mode,
      halts: seq<Window>): ExitResult
    requires entry > 0.0
  {
    match ArmOf(mode, path, entry, close, halts)
    case None => NotArmedResult(path, entry, close, ten)
    case Some(arm) => ArmedResult(path, arm, entry, close, ten, rule)
  }

  /** Without a positive entry price nothing arms; on touch, any quote before the close raises. */
  function WithoutBasis(
      path: seq<Quote>, entry: real, close: int, ten: Option<Quote>, mode: Mode): Result<ExitResult, Error>
    requires entry <= 0.0
  {
    if mode == Touch && exists q :: q in path && q.at < close then Err(MissingPercent)
    else Ok(NotArmedResult(path, entry, close, ten))
  }

  method TrailFloor(
      path: seq<Quote>, start: Arm, basis: real, close: int, ten: Option<Quote>, rule: Rule)
    returns (r: ExitResult)
    requires basis > 0.0
    ensures r == ArmedResult(path, start, basis, close, ten, rule)
  {
    hide FloorPct, FloorPrice, Percent, Max;
    var high := Pct(start.price, basis);
    for i := 0 to |path|
      invariant high == High(path, i, start, close, basis)
      invariant FirstSale(path, 0, start, close, basis, rule) == FirstSale(path, i, start, close, basis, rule)
    {
      if !Watched(path[i], start.at, close) { continue; }
      var now := Pct(path[i].bid, basis);
      high := Max(high, now);
      if path[i].bid <= FloorPrice(basis, FloorPct(high, rule)) {
        return ExitResult(FloorExit, Some(start.at), Some(path[i].at), Some(path[i].bid), Some(now), Some(high),
          Some(high - now));
      }
    }
    if ten.None? { return NoAnswer(Some(start.at)); }
    var atTen := Pct(ten.value.bid, basis);
    r := ExitResult(AtTen, Some(start.at), Some(ten.value.at), Some(ten.value.bid), Some(atTen), Some(high),
      Some(high - atTen));
  }

  method RunFloorLadder(
      path: seq<Quote>, entry: Option<real>, close: int, ten: Option<Quote>, rule: Rule, mode: Mode,
      halts: seq<Window>)
    returns (r: Result<ExitResult, Error>)
    ensures entry.None? ==> r == Ok(NoAnswer(None))
    ensures entry.Some? && entry.value <= 0.0 ==> r == WithoutBasis(path, entry.value, close, ten, mode)
    ensures entry.Some? && entry.value > 0.0 ==> r == Ok(Ladder(path, entry.value, close, ten, rule, mode, halts))
  {
    hide TouchArm, MinuteArmFrom, NotArmedResult, ArmedResult;
    if entry.None? { return Ok(NoAnswer(None)); }
    var basis := entry.value;
    var arm: Option<Arm>;
    if mode == Touch {
      if basis <= 0.0 {
        if exists q :: q in path && q.at < close { return Err(MissingPercent); }
        arm := None;
      } else {
        arm := TouchArm(path, basis, close);
      }
    } else {
      arm := MinuteCloseArm(path, basis, close, halts);
      if basis <= 0.0 { NoBasisNoArm(FirstMinute(path, close), path, basis, close, halts); }
    }
    if arm.None? { return Ok(NotArmedResult(path, basis, close, ten)); }

    var exit := TrailFloor(path, arm.value, basis, close, ten, rule);
    r := Ok(exit);
  }

  lemma {:induction false} NoBasisNoArm(minute: int, path: seq<Quote>, entry: real, close: int, halts: seq<Window>)
    requires entry <= 0.0
    ensures MinuteArmFrom(minute, path, entry, close, halts) == None
    decreases close - minute
  {
    if minute < close { NoBasisNoArm(minute + MINUTE, path, entry, close, halts); }
  }

  // ---------------------------------------------------------------- moving the parameters

  lemma {:induction false} HighRises(path: seq<Quote>, i: nat, j: nat, arm: Arm, close: int, entry: real)
    requires i <= j <= |path| && entry > 0.0
    ensures High(path, i, arm, close, entry) <= High(path, j, arm, close, entry)
  {
    hide Percent;
    if i < j { HighRises(path, i, j - 1, arm, close, entry); }
  }

  /** The floor never falls. */
  lemma {:induction false} FloorNeverFalls(
      path: seq<Quote>, i: nat, j: nat, arm: Arm, close: int, entry: real, rule: Rule)
    requires i <= j <= |path| && entry > 0.0
    ensures FloorPrice(entry, FloorPct(High(path, i, arm, close, entry), rule))
         <= FloorPrice(entry, FloorPct(High(path, j, arm, close, entry), rule))
  {
    hide High;
    HighRises(path, i, j, arm, close, entry);
    HigherFloorPrice(entry, FloorPct(High(path, i, arm, close, entry), rule),
      FloorPct(High(path, j, arm, close, entry), rule));
  }

  lemma {:induction false} HigherFloorPrice(entry: real, low: real, high: real)
    requires entry > 0.0 && low <= high
    ensures FloorPrice(entry, low) <= FloorPrice(entry, high)
  {
    assert 1.0 + low / 100.0 <= 1.0 + high / 100.0;
    assert entry * ((1.0 + high / 100.0) - (1.0 + low / 100.0)) >= 0.0;
  }

  /** A higher high and a tighter rule sell whatever the looser one sells. */
  lemma {:induction false} TighterSells(
      path: seq<Quote>, i: nat, loose: Arm, tight: Arm, close: int, entry: real, looser: Rule, tighter: Rule)
    requires i < |path| && entry > 0.0
    requires looser.floor <= tighter.floor && tighter.trail <= looser.trail
    requires tight.at <= loose.at && High(path, i + 1, loose, close, entry) <= High(path, i + 1, tight, close, entry)
    requires Sells(path, i, loose, close, entry, looser)
    ensures Sells(path, i, tight, close, entry, tighter)
  {
    hide High, FloorPrice;
    HigherFloorPrice(entry, FloorPct(High(path, i + 1, loose, close, entry), looser),
                     FloorPct(High(path, i + 1, tight, close, entry), tighter));
  }

  ghost predicate NoLater(a: ExitResult, b: ExitResult) {
    b.exitAt.Some? ==> a.exitAt.Some? && a.exitAt.value <= b.exitAt.value
  }

  /** The exit at 10:00 is the first executable quote at or after the close. */
  ghost predicate AfterClose(ten: Option<Quote>, close: int) { ten.Some? ==> ten.value.at >= close }

  lemma {:induction false} EarlierSale(
      path: seq<Quote>, first: Arm, second: Arm, entry: real, close: int, ten: Option<Quote>, a: Rule, b: Rule)
    requires InOrder(path) && entry > 0.0 && AfterClose(ten, close)
    requires forall i :: 0 <= i < |path| && Sells(path, i, second, close, entry, b) ==>
      Sells(path, i, first, close, entry, a)
    ensures NoLater(ArmedResult(path, first, entry, close, ten, a), ArmedResult(path, second, entry, close, ten, b))
  {
    hide High, FloorPct, FloorPrice, Percent;
  }

  /** Raising the initial floor or shrinking the trail never makes the exit later. */
  lemma {:induction false} TighterExitsNoLater(
      path: seq<Quote>, entry: real, close: int, ten: Option<Quote>, looser: Rule, tighter: Rule, mode: Mode,
      halts: seq<Window>)
    requires InOrder(path) && entry > 0.0 && AfterClose(ten, close)
    requires looser.floor <= tighter.floor && tighter.trail <= looser.trail
    ensures NoLater(Ladder(path, entry, close, ten, tighter, mode, halts),
      Ladder(path, entry, close, ten, looser, mode, halts))
  {
    hide Sells, ArmedResult, ArmOf, InOrder;
    var arm := ArmOf(mode, path, entry, close, halts);
    if arm.Some? {
      forall i | 0 <= i < |path| && Sells(path, i, arm.value, close, entry, looser)
        ensures Sells(path, i, arm.value, close, entry, tighter)
      {
        TighterSells(path, i, arm.value, arm.value, close, entry, looser, tighter);
      }
      EarlierSale(path, arm.value, arm.value, entry, close, ten, tighter, looser);
    }
  }

  // ---------------------------------------------------------------- touch against minute close

  lemma {:induction false} MinuteArmMeans(minute: int, path: seq<Quote>, entry: real, close: int, halts: seq<Window>)
    requires minute % MINUTE == 0 && MinuteArmFrom(minute, path, entry, close, halts).Some?
    ensures var arm := MinuteArmFrom(minute, path, entry, close, halts).value;
      && arm.at % MINUTE == 0 && arm.at - MINUTE < close && ArmsOn(arm.at - MINUTE, path, entry, halts)
      && arm.price == MinuteLast(path, arm.at - MINUTE).value.bid
    decreases close - minute
  {
    hide ArmsOn, MinuteLast;
    if !ArmsOn(minute, path, entry, halts) { MinuteArmMeans(minute + MINUTE, path, entry, close, halts); }
  }

  /** With a close on a minute boundary, a minute close that arms was touched before. */
  lemma {:induction false} TouchArmsFirst(path: seq<Quote>, entry: real, close: int, halts: seq<Window>)
    requires InOrder(path) && entry > 0.0 && close % MINUTE == 0
    requires ArmOf(MinuteClose, path, entry, close, halts).Some?
    ensures ArmOf(Touch, path, entry, close, halts).Some?
    ensures ArmOf(Touch, path, entry, close, halts).value.at < ArmOf(MinuteClose, path, entry, close, halts).value.at
  {
    hide TouchArm, MinuteArmFrom, MinuteLast, Touches, Percent, InOrder;
    var last := ClosingTouch(path, entry, close, halts);
  }

  /** The quote that closed the arming minute, a touch before its end. */
  lemma {:induction false} ClosingTouch(path: seq<Quote>, entry: real, close: int, halts: seq<Window>)
    returns (last: Quote)
    requires entry > 0.0 && close % MINUTE == 0
    requires ArmOf(MinuteClose, path, entry, close, halts).Some?
    ensures var arm := ArmOf(MinuteClose, path, entry, close, halts).value;
      last in path && Touches(last, entry, close) && last.bid == arm.price && last.at < arm.at <= close
  {
    hide MinuteArmFrom, MinuteLast, HaltedMinute, Percent;
    var first := FirstMinute(path, close);
    FirstMinuteAligned(path, close);
    MinuteArmMeans(first, path, entry, close, halts);
    var arm := ArmOf(MinuteClose, path, entry, close, halts).value;
    last := MinuteLast(path, arm.at - MINUTE).value;
    AlignedBelow(arm.at - MINUTE, close);
  }

  lemma {:induction false} FirstMinuteAligned(path: seq<Quote>, close: int)
    requires close % MINUTE == 0
    ensures FirstMinute(path, close) % MINUTE == 0
  {
  }

  lemma {:induction false} AlignedBelow(minute: int, close: int)
    requires (minute + MINUTE) % MINUTE == 0 && close % MINUTE == 0 && minute < close
    ensures minute + MINUTE <= close
  {
  }

  /** On every other close the first minute to reach past it can arm without a touch. */
  lemma {:induction false} UnalignedCloseArmsLate(close: int)
    requires close % MINUTE != 0
    ensures var start := close - close % MINUTE;
      var path := [Quote(start, 100.0, 100.0), Quote(close, 110.0, 110.0)];
      && InOrder(path) && ArmOf(Touch, path, 100.0, close, []) == None
      && ArmOf(MinuteClose, path, 100.0, close, []) == Some(Arm(start + MINUTE, 110.0))
  {
    var start := close - close % MINUTE;
    var path := [Quote(start, 100.0, 100.0), Quote(close, 110.0, 110.0)];
    assert start % MINUTE == 0;
    assert MinuteLast(path, start) == Some(path[1]);
    assert ArmsOn(start, path, 100.0, []);
  }

  lemma {:induction false} HighBeforeArm(path: seq<Quote>, n: nat, arm: Arm, close: int, entry: real)
    requires n <= |path| && entry > 0.0 && forall k :: 0 <= k < n ==> path[k].at < arm.at
    ensures High(path, n, arm, close, entry) == Pct(arm.price, entry)
  {
    hide Percent;
    if n > 0 { HighBeforeArm(path, n - 1, arm, close, entry); }
  }

  /** Once the quote that closed the minute is in, the touch ladder's high is no lower than the other's. */
  lemma {:induction false} TouchHighIsHigher(
      path: seq<Quote>, j: nat, n: nat, touch: Arm, minute: Arm, close: int, entry: real)
    requires InOrder(path) && j < n <= |path| && entry > 0.0
    requires path[j].bid == minute.price && touch.at <= path[j].at < close && path[j].at < minute.at
    ensures High(path, n, minute, close, entry) <= High(path, n, touch, close, entry)
  {
    hide Percent;
    if n == j + 1 {
      HighBeforeArm(path, n, minute, close, entry);
    } else {
      TouchHighIsHigher(path, j, n - 1, touch, minute, close, entry);
    }
  }

  /** Arming on touch never exits later than arming on the minute's close. */
  lemma {:induction false} TouchExitsNoLater(
      path: seq<Quote>, entry: real, close: int, ten: Option<Quote>, rule: Rule, halts: seq<Window>)
    requires InOrder(path) && entry > 0.0 && close % MINUTE == 0 && AfterClose(ten, close)
    ensures NoLater(Ladder(path, entry, close, ten, rule, Touch, halts),
      Ladder(path, entry, close, ten, rule, MinuteClose, halts))
  {
    hide Sells, ArmedResult, ArmOf, InOrder;
    var minute, touch := ArmOf(MinuteClose, path, entry, close, halts), ArmOf(Touch, path, entry, close, halts);
    if minute.Some? {
      TouchArmsFirst(path, entry, close, halts);
      forall i | 0 <= i < |path| && Sells(path, i, minute.value, close, entry, rule)
        ensures Sells(path, i, touch.value, close, entry, rule)
      {
        TouchSells(path, i, entry, close, rule, halts);
      }
      EarlierSale(path, touch.value, minute.value, entry, close, ten, rule, rule);
    } else if touch.Some? {
      ArmedExitsByTen(path, touch.value, entry, close, ten, rule);
    }
  }

  lemma {:induction false} ArmedExitsByTen(
      path: seq<Quote>, arm: Arm, entry: real, close: int, ten: Option<Quote>, rule: Rule)
    requires entry > 0.0 && AfterClose(ten, close)
    ensures NoLater(ArmedResult(path, arm, entry, close, ten, rule), NotArmedResult(path, entry, close, ten))
  {
  }

  lemma {:induction false} TouchSells(path: seq<Quote>, i: nat, entry: real, close: int, rule: Rule, halts: seq<Window>)
    requires InOrder(path) && entry > 0.0 && close % MINUTE == 0 && i < |path|
    requires ArmOf(MinuteClose, path, entry, close, halts).Some? && ArmOf(Touch, path, entry, close, halts).Some?
    requires Sells(path, i, ArmOf(MinuteClose, path, entry, close, halts).value, close, entry, rule)
    ensures Sells(path, i, ArmOf(Touch, path, entry, close, halts).value, close, entry, rule)
  {
    hide TouchArm, MinuteArmFrom, FloorPrice, FloorPct, High, Percent, Sells;
    var minute := ArmOf(MinuteClose, path, entry, close, halts).value;
    var touch := ArmOf(Touch, path, entry, close, halts).value;
    var last := ClosingTouch(path, entry, close, halts);
    var j :| 0 <= j < |path| && path[j] == last;
    SaleIsLater(path, i, j, minute, close, entry, rule);
    TouchHighIsHigher(path, j, i + 1, touch, minute, close, entry);
    TighterSells(path, i, minute, touch, close, entry, rule, rule);
  }

  lemma {:induction false} SaleIsLater(path: seq<Quote>, i: nat, j: nat, arm: Arm, close: int, entry: real, rule: Rule)
    requires InOrder(path) && i < |path| && j < |path| && entry > 0.0
    requires Sells(path, i, arm, close, entry, rule) && path[j].at < arm.at
    ensures j < i
  {
    hide FloorPrice, FloorPct, High, Percent;
  }
}
