/** actual_leg_result of scripts/actual_resting_operator_rule.py and leg_boundary of
    scripts/actual_resting_entry_extrema.py: what the matched exits say a leg earned. */
module LegResults {
  import opened Fills
  import opened ExitPairing

  /** `Raises`: a division by zero, or the latest of no exits. */
  datatype LegResult = StillOpen(closed: real) | Closed(returnPct: real, exitAt: int, exitPrice: real) | Raises

  datatype Boundary = ActualExit(at: int, price: real) | Cutoff(at: int) | NoPrice

  function Proceeds(exits: seq<Exit>): real {
    if exits == [] then 0.0
    else
      var last := exits[|exits| - 1];
      Proceeds(exits[..|exits| - 1]) + Worth(last)
  }

  function LastExit(exits: seq<Exit>): (at: int)
    requires exits != []
    ensures forall k :: 0 <= k < |exits| ==> exits[k].sell.at <= at
    ensures exists k :: 0 <= k < |exits| && exits[k].sell.at == at
  {
    var last := exits[|exits| - 1].sell.at;
    if |exits| == 1 then last
    else
      var before := LastExit(exits[..|exits| - 1]);
      if last < before then before else last
  }

  /** Proceeds over the entry's own quantity: the matcher's conservation law is not checked here. */
  function ActualLegResult(quantity: real, price: real, exits: seq<Exit>): LegResult {
    var closed := Total(exits);
    if closed < quantity then StillOpen(closed)
    else if quantity == 0.0 || price == 0.0 || exits == [] then Raises
    else
      var exitPrice := Proceeds(exits) / quantity;
      Closed((exitPrice / price - 1.0) * 100.0, LastExit(exits), exitPrice)
  }

  function LegBoundary(quantity: real, exits: seq<Exit>, cutoff: int): Boundary {
    var total := Total(exits);
    if total >= quantity && exits != [] && LastExit(exits) <= cutoff then
      if total == 0.0 then NoPrice else ActualExit(LastExit(exits), Proceeds(exits) / total)
    else Cutoff(cutoff)
  }

  // ---------------------------------------------------------------- laws

  ghost predicate PricesWithin(exits: seq<Exit>, lo: real, hi: real) {
    forall k :: 0 <= k < |exits| ==> lo <= exits[k].sell.price <= hi
  }

  ghost predicate NonNegative(exits: seq<Exit>) {
    forall k :: 0 <= k < |exits| ==> exits[k].quantity >= 0.0
  }

  /** The worth of one exit. */
  function Worth(e: Exit): real { e.quantity * e.sell.price }

  lemma {:induction false} ProceedsBounds(exits: seq<Exit>, lo: real, hi: real)
    requires NonNegative(exits) && PricesWithin(exits, lo, hi)
    ensures lo * Total(exits) <= Proceeds(exits) <= hi * Total(exits)
  {
    hide Worth;
    if exits == [] {
      assert lo * 0.0 == 0.0 == hi * 0.0;
    } else {
      var front, last := exits[..|exits| - 1], exits[|exits| - 1];
      ProceedsBounds(front, lo, hi);
      Extend(Total(front), Proceeds(front), last, lo);
      Extend(Total(front), Proceeds(front), last, hi);
    }
  }

  /** One more exit keeps the proceeds on the same side of a price bound. */
  lemma {:induction false} Extend(total: real, proceeds: real, e: Exit, bound: real)
    requires e.quantity >= 0.0
    ensures bound * total <= proceeds && bound <= e.sell.price ==> bound * (total + e.quantity) <= proceeds + Worth(e)
    ensures proceeds <= bound * total && e.sell.price <= bound ==> proceeds + Worth(e) <= bound * (total + e.quantity)
  {
    var q, p := e.quantity, e.sell.price;
    assert bound * (total + q) == bound * total + bound * q;
  }

  lemma {:induction false} ExitsPositive(fills: seq<Fill>, b: nat, n: nat)
    requires b < |fills| && n <= |fills|
    ensures NonNegative(Exits(fills, b, n))
  {
    hide Taken;
    if n > 0 { ExitsPositive(fills, b, n - 1); }
  }

  /** A leg is fully closed exactly when the sells have passed its whole stretch. */
  lemma {:induction false} ClosedWhenPassed(fills: seq<Fill>, b: nat)
    requires Loaded(fills) && b < |fills| && fills[b].side == Buy && fills[b].quantity > 0.0
    ensures var total, key := Total(Exits(fills, b, |fills|)), KeyOf(fills[b]);
      total <= fills[b].quantity
      && (total >= fills[b].quantity <==> Sold(fills, key, |fills|) >= Bought(fills, key, b + 1))
  {
    hide Sold, Exits;
    ExitsTotal(fills, b, |fills|);
  }

  lemma {:induction false} MeanOfExits(quantity: real, price: real, exits: seq<Exit>, lo: real, hi: real)
    requires quantity > 0.0 && price != 0.0 && NonNegative(exits) && PricesWithin(exits, lo, hi)
    requires Total(exits) <= quantity
    ensures var r := ActualLegResult(quantity, price, exits);
      && !r.Raises?
      && (r.Closed? <==> Total(exits) >= quantity)
      && (r.Closed? ==>
           && Total(exits) == quantity && r.exitPrice * Total(exits) == Proceeds(exits) && lo <= r.exitPrice <= hi
           && ReturnsAndTime(r, price, exits))
  {
    hide Proceeds, NonNegative, PricesWithin;
    if Total(exits) >= quantity {
      ProceedsBounds(exits, lo, hi);
      hide Total;
      ReturnBack(Proceeds(exits) / quantity, price);
    }
  }

  /** The return is the exit price over the entry price less one, in percent, at the time of the latest sell. */
  ghost predicate ReturnsAndTime(r: LegResult, price: real, exits: seq<Exit>)
    requires r.Closed?
  {
    && (r.returnPct / 100.0 + 1.0) * price == r.exitPrice
    && (exists e :: e in exits && e.sell.at == r.exitAt)
    && forall e :: e in exits ==> e.sell.at <= r.exitAt
  }

  lemma {:induction false} ReturnBack(exitPrice: real, price: real)
    requires price != 0.0
    ensures ((exitPrice / price - 1.0) * 100.0 / 100.0 + 1.0) * price == exitPrice
  {
    assert exitPrice / price * price == exitPrice;
  }

  /** The entry of a matched run is reported closed exactly when the sells have passed its whole
      stretch; its quantity is then exactly what its exits add up to, so the reported exit price is the
      true weighted mean and lies between the least and the greatest exit price. */
  lemma {:induction false} ActualResultIsWeightedMean(fills: seq<Fill>, b: nat, lo: real, hi: real)
    requires Loaded(fills) && b < |fills| && fills[b].side == Buy
    requires fills[b].quantity > 0.0 && fills[b].price != 0.0
    requires PricesWithin(Exits(fills, b, |fills|), lo, hi)
    ensures var f, exits := fills[b], Exits(fills, b, |fills|);
      var key := KeyOf(f);
      var r := ActualLegResult(f.quantity, f.price, exits);
      && !r.Raises?
      && (r.Closed? <==> Sold(fills, key, |fills|) >= Bought(fills, key, b + 1))
      && (r.Closed? ==>
           && Total(exits) == f.quantity && r.exitPrice * Total(exits) == Proceeds(exits) && lo <= r.exitPrice <= hi
           && ReturnsAndTime(r, f.price, exits))
  {
    hide Exits, Sold, Bought, ActualLegResult, Total, ReturnsAndTime;
    ClosedWhenPassed(fills, b);
    ExitsPositive(fills, b, |fills|);
    MeanOfExits(fills[b].quantity, fills[b].price, Exits(fills, b, |fills|), lo, hi);
  }

  /** The two reports of one leg agree whenever the extrema report calls it an actual exit. */
  lemma {:induction false} ReportsAgree(fills: seq<Fill>, b: nat, cutoff: int)
    requires Loaded(fills) && b < |fills| && fills[b].side == Buy
    requires fills[b].quantity > 0.0 && fills[b].price != 0.0
    ensures var f, exits := fills[b], Exits(fills, b, |fills|);
      var actual, bound := ActualLegResult(f.quantity, f.price, exits), LegBoundary(f.quantity, exits, cutoff);
      && !bound.NoPrice?
      && (bound.ActualExit? <==> actual.Closed? && actual.exitAt <= cutoff)
      && (bound.ActualExit? ==> bound.price == actual.exitPrice && bound.at == actual.exitAt)
  {
    hide Exits, Proceeds, Sold, Bought;
    ClosedWhenPassed(fills, b);
  }

  /** For exits of any origin a reported price is their mean exactly when they close the entry's quantity and
      no more, or brought nothing. */
  lemma {:induction false} MeanExactlyWhenFull(quantity: real, price: real, exits: seq<Exit>)
    requires ActualLegResult(quantity, price, exits).Closed? && Total(exits) != 0.0
    ensures ActualLegResult(quantity, price, exits).exitPrice == Proceeds(exits) / Total(exits)
      <==> Total(exits) == quantity || Proceeds(exits) == 0.0
  {
    hide Total, Proceeds, LastExit;
    SameQuotient(Proceeds(exits), quantity, Total(exits));
  }

  lemma {:induction false} SameQuotient(x: real, p: real, q: real)
    requires p != 0.0 && q != 0.0
    ensures x / p == x / q <==> p == q || x == 0.0
  {
    var u, v := x / p, x / q;
    assert u * p == x == v * q;
    if u == v { assert u * (p - q) == 0.0; }
  }

  /** Exits closing more than the entry's quantity give a price above every exit price. */
  lemma {:induction false} OverclosedLegIsMispriced(sell: Fill)
    requires sell.price == 10.0
    ensures var exits := [Exit(2.0, sell)];
      var r := ActualLegResult(1.0, 10.0, exits);
      r.Closed? && PricesWithin(exits, 10.0, 10.0) && r.exitPrice == 20.0
  {
    var exits := [Exit(2.0, sell)];
    assert Proceeds([]) == 0.0 && Total([]) == 0.0;
    assert exits[..0] == [] && exits[0] == Exit(2.0, sell);
    assert Worth(exits[0]) == 2.0 * 10.0;
    assert Proceeds(exits) == 20.0 && Total(exits) == 2.0;
  }
}
