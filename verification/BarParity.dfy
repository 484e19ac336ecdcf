/** The acceptance counts of scripts/momentum_condition_parity.py: do the eligible prints of each second have
    the high and low of that second's bar? Which prints are eligible is an input. */
module BarParity {
  import opened Wrappers

  datatype Trade = Trade(second: int, price: real, eligible: bool)

  datatype Bar = Bar(second: int, high: real, low: real)

  datatype Parity = Parity(
    total: nat, eligible: nat, bars: nat, matching: nat, mismatched: nat, withoutPrint: nat, phantom: nat)

  // ---------------------------------------------------------------- definitions

  /** The eligible prices of a second, in the order of the rows. */
  function PricesAt(trades: seq<Trade>, s: int): seq<real> {
    if trades == [] then []
    else
      var t := trades[|trades| - 1];
      PricesAt(trades[..|trades| - 1], s) + if t.eligible && t.second == s then [t.price] else []
  }

  function Eligible(trades: seq<Trade>): nat {
    if trades == [] then 0 else Eligible(trades[..|trades| - 1]) + if trades[|trades| - 1].eligible then 1 else 0
  }

  /** The bar kept for a second: the last one listed. */
  function BarAt(bars: seq<Bar>, s: int): Option<Bar> {
    if bars == [] then None
    else if bars[|bars| - 1].second == s then Some(bars[|bars| - 1])
    else BarAt(bars[..|bars| - 1], s)
  }

  function Highest(prices: seq<real>): (h: real)
    requires prices != []
    ensures h in prices && forall p :: p in prices ==> p <= h
  {
    if |prices| == 1 then prices[0]
    else
      var h := Highest(prices[1..]);
      assert prices == [prices[0]] + prices[1..];
      if prices[0] > h then prices[0] else h
  }

  function Lowest(prices: seq<real>): (l: real)
    requires prices != []
    ensures l in prices && forall p :: p in prices ==> l <= p
  {
    if |prices| == 1 then prices[0]
    else
      var l := Lowest(prices[1..]);
      assert prices == [prices[0]] + prices[1..];
      if prices[0] < l then prices[0] else l
  }

  predicate Matches(prices: seq<real>, bar: Bar) {
    prices != [] && Highest(prices) == bar.high && Lowest(prices) == bar.low
  }

  /** Every second with a bar has eligible prints of its high and low, and no other second has any. */
  ghost predicate Reproduced(trades: seq<Trade>, bars: seq<Bar>) {
    forall s :: ReproducedAt(trades, bars, s)
  }

  ghost predicate ReproducedAt(trades: seq<Trade>, bars: seq<Bar>, s: int) {
    match BarAt(bars, s)
    case None => PricesAt(trades, s) == []
    case Some(bar) => Matches(PricesAt(trades, s), bar)
  }

  function BarSeconds(bars: seq<Bar>): set<int> { set b | b in bars :: b.second }

  function PrintSeconds(trades: seq<Trade>): set<int> { set t | t in trades && t.eligible :: t.second }

  ghost function Matching(trades: seq<Trade>, bars: seq<Bar>): set<int> {
    set s | s in BarSeconds(bars) && PricesAt(trades, s) != [] && ReproducedAt(trades, bars, s)
  }

  ghost function Mismatched(trades: seq<Trade>, bars: seq<Bar>): set<int> {
    set s | s in BarSeconds(bars) && PricesAt(trades, s) != [] && !ReproducedAt(trades, bars, s)
  }

  ghost function WithoutPrint(trades: seq<Trade>, bars: seq<Bar>): set<int> {
    set s | s in BarSeconds(bars) && PricesAt(trades, s) == []
  }

  predicate Accepted(p: Parity) { p.bars != 0 && p.matching == p.bars && p.phantom == 0 }

  // ---------------------------------------------------------------- the evaluation

  method CollectPrices(trades: seq<Trade>) returns (prices: map<int, seq<real>>, eligible: nat)
    ensures eligible == Eligible(trades)
    ensures forall s :: if s in prices then prices[s] == PricesAt(trades, s) != [] else PricesAt(trades, s) == []
  {
    prices, eligible := map[], 0;
    for n := 0 to |trades|
      invariant eligible == Eligible(trades[..n])
      invariant forall s :: if s in prices then prices[s] == PricesAt(trades[..n], s) != []
        else PricesAt(trades[..n], s) == []
    {
      var t := trades[n];
      assert trades[..n + 1][..n] == trades[..n];
      if !t.eligible { continue; }
      eligible := eligible + 1;
      prices := prices[t.second := (if t.second in prices then prices[t.second] else []) + [t.price]];
    }
    assert trades[..|trades|] == trades;
  }

  method CollectBars(bars: seq<Bar>) returns (bySecond: map<int, Bar>)
    ensures forall s :: BarAt(bars, s) == if s in bySecond then Some(bySecond[s]) else None
  {
    bySecond := map[];
    for n := 0 to |bars|
      invariant forall s :: BarAt(bars[..n], s) == if s in bySecond then Some(bySecond[s]) else None
    {
      assert bars[..n + 1][..n] == bars[..n];
      bySecond := bySecond[bars[n].second := bars[n]];
    }
    assert bars[..|bars|] == bars;
  }

  predicate Fits(prices: map<int, seq<real>>, bySecond: map<int, Bar>, s: int) {
    s in bySecond && s in prices && Matches(prices[s], bySecond[s])
  }

  function Fitting(prices: map<int, seq<real>>, bySecond: map<int, Bar>, seconds: set<int>): set<int> {
    set s | s in seconds && Fits(prices, bySecond, s)
  }

  function Misfits(prices: map<int, seq<real>>, bySecond: map<int, Bar>, seconds: set<int>): set<int> {
    set s | s in seconds && s in prices && !Fits(prices, bySecond, s)
  }

  function Unprinted(prices: map<int, seq<real>>, seconds: set<int>): set<int> {
    set s | s in seconds && s !in prices
  }

  lemma {:induction false} OneMoreSecond(prices: map<int, seq<real>>, bySecond: map<int, Bar>, done: set<int>, s: int)
    requires s !in done
    ensures |done + {s}| == |done| + 1
    ensures |Fitting(prices, bySecond, done + {s})|
      == |Fitting(prices, bySecond, done)| + if Fits(prices, bySecond, s) then 1 else 0
    ensures |Misfits(prices, bySecond, done + {s})|
      == |Misfits(prices, bySecond, done)| + if s in prices && !Fits(prices, bySecond, s) then 1 else 0
    ensures |Unprinted(prices, done + {s})| == |Unprinted(prices, done)| + if s !in prices then 1 else 0
  {
    hide Fits;
    SetPlus(Fitting(prices, bySecond, done), Fitting(prices, bySecond, done + {s}), s, Fits(prices, bySecond, s));
    SetPlus(Misfits(prices, bySecond, done), Misfits(prices, bySecond, done + {s}), s,
            s in prices && !Fits(prices, bySecond, s));
    SetPlus(Unprinted(prices, done), Unprinted(prices, done + {s}), s, s !in prices);
  }

  lemma {:induction false} SetPlus(before: set<int>, after: set<int>, s: int, added: bool)
    requires s !in before
    requires forall x :: x in after <==> x in before || (added && x == s)
    ensures |after| == |before| + if added then 1 else 0
  {
    var expected := if added then before + {s} else before;
    forall x ensures x in after <==> x in expected {}
    assert after == expected;
  }

  method CountMatches(prices: map<int, seq<real>>, bySecond: map<int, Bar>)
    returns (matching: nat, mismatched: nat, without: nat)
    ensures matching == |Fitting(prices, bySecond, bySecond.Keys)|
    ensures mismatched == |Misfits(prices, bySecond, bySecond.Keys)|
    ensures without == |Unprinted(prices, bySecond.Keys)|
    ensures matching + mismatched + without == |bySecond|
  {
    hide Matches, Fitting, Misfits, Unprinted;
    matching, mismatched, without := 0, 0, 0;
    var pending := bySecond.Keys;
    ghost var done: set<int> := {};
    NothingFits(prices, bySecond);
    while pending != {}
      invariant done + pending == bySecond.Keys && done !! pending
      invariant matching == |Fitting(prices, bySecond, done)| && mismatched == |Misfits(prices, bySecond, done)|
      invariant without == |Unprinted(prices, done)| && matching + mismatched + without == |done|
      decreases pending
    {
      if forall s :: s !in pending { assert false; }
      var s :| s in pending;
      assert s in bySecond.Keys;
      OneMoreSecond(prices, bySecond, done, s);
      pending, done := pending - {s}, done + {s};
      if s !in prices {
        without := without + 1;
      } else if Matches(prices[s], bySecond[s]) {
        matching := matching + 1;
      } else {
        mismatched := mismatched + 1;
      }
    }
    assert done == bySecond.Keys;
  }

  lemma {:induction false} NothingFits(prices: map<int, seq<real>>, bySecond: map<int, Bar>)
    ensures Fitting(prices, bySecond, {}) == Misfits(prices, bySecond, {}) == Unprinted(prices, {}) == {}
  {
  }

  method Evaluate(trades: seq<Trade>, bars: seq<Bar>) returns (p: Parity)
    ensures p.total == |trades| && p.eligible == Eligible(trades)
    ensures p.bars == |BarSeconds(bars)| == p.matching + p.mismatched + p.withoutPrint
    ensures p.matching == |Matching(trades, bars)| && p.mismatched == |Mismatched(trades, bars)|
    ensures p.withoutPrint == |WithoutPrint(trades, bars)|
    ensures p.phantom == |PrintSeconds(trades) - BarSeconds(bars)|
    ensures Accepted(p) <==> bars != [] && Reproduced(trades, bars)
  {
    hide PricesAt, BarAt, Matches, Eligible, Reproduced, Fitting, Misfits, Unprinted, Matching, Mismatched,
      WithoutPrint, BarSeconds, PrintSeconds;
    var prices, eligible := CollectPrices(trades);
    var bySecond := CollectBars(bars);
    var matching, mismatched, without := CountMatches(prices, bySecond);
    var phantom := prices.Keys - bySecond.Keys;
    p := Parity(|trades|, eligible, |bySecond|, matching, mismatched, without, |phantom|);
    assert forall s :: Collected(trades, bars, prices, bySecond, s);
    AcceptedMeans(trades, bars, prices, bySecond);
    SecondsMean(trades, bars, prices, bySecond);
  }

  lemma {:induction false} BarSecondsMean(bars: seq<Bar>, s: int)
    ensures s in BarSeconds(bars) <==> BarAt(bars, s).Some?
  {
    if bars != [] {
      var front, last := bars[..|bars| - 1], bars[|bars| - 1];
      BarSecondsMean(front, s);
      assert bars == front + [last];
      assert last in bars;
    }
  }

  lemma {:induction false} PrintSecondsMean(trades: seq<Trade>, s: int)
    ensures s in PrintSeconds(trades) <==> PricesAt(trades, s) != []
  {
    if trades != [] {
      var front, last := trades[..|trades| - 1], trades[|trades| - 1];
      PrintSecondsMean(front, s);
      assert trades == front + [last];
      assert last in trades;
    }
  }

  /** The dictionaries sort the seconds as the rows do. */
  lemma {:induction false} SecondsMean(
      trades: seq<Trade>, bars: seq<Bar>, prices: map<int, seq<real>>, bySecond: map<int, Bar>)
    requires forall s :: Collected(trades, bars, prices, bySecond, s)
    ensures BarSeconds(bars) == bySecond.Keys
    ensures PrintSeconds(trades) - BarSeconds(bars) == prices.Keys - bySecond.Keys
    ensures Fitting(prices, bySecond, bySecond.Keys) == Matching(trades, bars)
    ensures Misfits(prices, bySecond, bySecond.Keys) == Mismatched(trades, bars)
    ensures Unprinted(prices, bySecond.Keys) == WithoutPrint(trades, bars)
  {
    hide PricesAt, BarAt, Collected, ReproducedAt, Fits, BarSeconds, PrintSeconds;
    forall s
      ensures s in BarSeconds(bars) <==> s in bySecond
      ensures s in PrintSeconds(trades) <==> s in prices
      ensures s in prices <==> PricesAt(trades, s) != []
      ensures s in prices && s in bySecond ==> (Fits(prices, bySecond, s) <==> ReproducedAt(trades, bars, s))
    {
      SecondMeans(trades, bars, prices, bySecond, s);
    }
    FitsPrinted(prices, bySecond);
    assert forall s :: s in BarSeconds(bars) <==> s in bySecond.Keys;
    assert forall s :: s in PrintSeconds(trades) - BarSeconds(bars) <==> s in prices.Keys - bySecond.Keys;
    assert forall s :: s in Matching(trades, bars) <==> s in Fitting(prices, bySecond, bySecond.Keys);
    assert forall s :: s in Mismatched(trades, bars) <==> s in Misfits(prices, bySecond, bySecond.Keys);
    assert forall s :: s in WithoutPrint(trades, bars) <==> s in Unprinted(prices, bySecond.Keys);
  }

  lemma {:induction false} FitsPrinted(prices: map<int, seq<real>>, bySecond: map<int, Bar>)
    ensures forall s :: Fits(prices, bySecond, s) ==> s in prices
  {
  }

  lemma {:induction false} SecondMeans(
      trades: seq<Trade>, bars: seq<Bar>, prices: map<int, seq<real>>, bySecond: map<int, Bar>, s: int)
    requires Collected(trades, bars, prices, bySecond, s)
    ensures s in BarSeconds(bars) <==> s in bySecond
    ensures s in PrintSeconds(trades) <==> s in prices
    ensures s in prices <==> PricesAt(trades, s) != []
    ensures s in prices && s in bySecond ==> (Fits(prices, bySecond, s) <==> ReproducedAt(trades, bars, s))
  {
    hide PricesAt, BarAt, BarSeconds, PrintSeconds;
    BarSecondsMean(bars, s);
    PrintSecondsMean(trades, s);
  }

  lemma {:induction false} SomeBar(bars: seq<Bar>)
    ensures bars != [] <==> exists s :: BarAt(bars, s).Some?
  {
    if bars != [] { assert BarAt(bars, bars[|bars| - 1].second).Some?; }
  }

  ghost predicate Collected(
      trades: seq<Trade>, bars: seq<Bar>, prices: map<int, seq<real>>, bySecond: map<int, Bar>, s: int)
  {
    && (if s in prices then prices[s] == PricesAt(trades, s) != [] else PricesAt(trades, s) == [])
    && BarAt(bars, s) == if s in bySecond then Some(bySecond[s]) else None
  }

  lemma {:induction false} FitsMeans(
      trades: seq<Trade>, bars: seq<Bar>, prices: map<int, seq<real>>, bySecond: map<int, Bar>, s: int)
    requires Collected(trades, bars, prices, bySecond, s)
    ensures ReproducedAt(trades, bars, s)
      <==> s !in bySecond.Keys - Fitting(prices, bySecond, bySecond.Keys) && s !in prices.Keys - bySecond.Keys
  {
    hide PricesAt, BarAt;
  }

  lemma {:induction false} AllFit(prices: map<int, seq<real>>, bySecond: map<int, Bar>)
    ensures |Fitting(prices, bySecond, bySecond.Keys)| == |bySecond| <==>
      bySecond.Keys - Fitting(prices, bySecond, bySecond.Keys) == {}
  {
    hide Fits;
    var fitting := Fitting(prices, bySecond, bySecond.Keys);
    assert bySecond.Keys == fitting + (bySecond.Keys - fitting);
  }

  lemma {:induction false} AcceptedMeans(
      trades: seq<Trade>, bars: seq<Bar>, prices: map<int, seq<real>>, bySecond: map<int, Bar>)
    requires forall s :: Collected(trades, bars, prices, bySecond, s)
    ensures
      |bySecond| != 0 && |Fitting(prices, bySecond, bySecond.Keys)| == |bySecond| && |prices.Keys - bySecond.Keys| == 0
      <==> bars != [] && Reproduced(trades, bars)
  {
    hide Fitting, ReproducedAt, Collected, BarAt;
    AllFit(prices, bySecond);
    var misfits, phantom := bySecond.Keys - Fitting(prices, bySecond, bySecond.Keys), prices.Keys - bySecond.Keys;
    forall s ensures ReproducedAt(trades, bars, s) <==> s !in misfits && s !in phantom {
      FitsMeans(trades, bars, prices, bySecond, s);
    }
    BothEmpty(misfits, phantom);
    assert Reproduced(trades, bars) <==> forall s :: s !in misfits && s !in phantom;
    AnyBar(trades, bars, prices, bySecond);
  }

  lemma {:induction false} BothEmpty(x: set<int>, y: set<int>)
    ensures x == {} && y == {} <==> forall s :: s !in x && s !in y
  {
    if forall s :: s !in x && s !in y {
      assert x == {} && y == {};
    }
  }

  lemma {:induction false} AnyBar(
      trades: seq<Trade>, bars: seq<Bar>, prices: map<int, seq<real>>, bySecond: map<int, Bar>)
    requires forall s :: Collected(trades, bars, prices, bySecond, s)
    ensures |bySecond| != 0 <==> bars != []
  {
    hide PricesAt, BarAt;
    SomeBar(bars);
    if bars != [] {
      var s :| BarAt(bars, s).Some?;
      assert Collected(trades, bars, prices, bySecond, s);
    } else {
      forall s ensures s !in bySecond { assert Collected(trades, bars, prices, bySecond, s) && BarAt(bars, s) == None; }
      assert bySecond == map[];
    }
  }

  /** An eligible print of the second at the price. */
  ghost predicate PrintedAt(trades: seq<Trade>, s: int, p: real) {
    exists t :: t in trades && t.eligible && t.second == s && t.price == p
  }

  lemma {:induction false} PriceIsPrinted(trades: seq<Trade>, s: int, p: real)
    ensures p in PricesAt(trades, s) <==> PrintedAt(trades, s, p)
  {
    if trades != [] {
      var front, last := trades[..|trades| - 1], trades[|trades| - 1];
      PriceIsPrinted(front, s, p);
      assert trades == front + [last];
      assert forall t :: t in trades <==> t in front || t == last;
    }
  }

  /** A bar that matches the prices has their greatest as its high and their least as its low. */
  lemma {:induction false} MatchesMeans(prices: seq<real>, bar: Bar)
    ensures Matches(prices, bar) <==>
      bar.high in prices && bar.low in prices && forall p :: p in prices ==> bar.low <= p <= bar.high
  {
    if prices != [] && bar.high in prices && bar.low in prices && forall p :: p in prices ==> bar.low <= p <= bar.high {
      assert Highest(prices) in prices && Lowest(prices) in prices;
    }
  }

  /** Bar k is the last one listed for its second. */
  ghost predicate LastOf(bars: seq<Bar>, k: int) {
    0 <= k < |bars| && forall j :: k < j < |bars| ==> bars[j].second != bars[k].second
  }

  /** The bar of a second is the last one listed for it. */
  lemma {:induction false} LastListed(bars: seq<Bar>, s: int)
    ensures BarAt(bars, s).None? ==> forall b :: b in bars ==> b.second != s
    ensures BarAt(bars, s).Some? ==>
      exists k :: LastOf(bars, k) && bars[k].second == s && bars[k] == BarAt(bars, s).value
  {
    if bars != [] {
      var n := |bars| - 1;
      if bars[n].second == s {
        assert LastOf(bars, n);
      } else {
        LastListed(bars[..n], s);
        assert bars == bars[..n] + [bars[n]];
        if BarAt(bars, s).Some? {
          var k :| LastOf(bars[..n], k) && bars[..n][k].second == s && bars[..n][k] == BarAt(bars, s).value;
          assert LastOf(bars, k);
        }
      }
    }
  }

  /** The prices printed in the second, between the two given ones and both among them. */
  ghost predicate Spans(trades: seq<Trade>, s: int, low: real, high: real) {
    && PrintedAt(trades, s, high) && PrintedAt(trades, s, low)
    && forall p :: PrintedAt(trades, s, p) ==> low <= p <= high
  }

  /** A second is reproduced when its bar's high and low are the greatest and the least eligible price printed in it, or
      when it has neither a bar nor such a price. */
  lemma {:induction false} ReproducedInFields(trades: seq<Trade>, bars: seq<Bar>, s: int)
    ensures BarAt(bars, s).None? ==>
      (ReproducedAt(trades, bars, s) <==> forall p :: !PrintedAt(trades, s, p))
    ensures BarAt(bars, s).Some? ==>
      (ReproducedAt(trades, bars, s) <==> Spans(trades, s, BarAt(bars, s).value.low, BarAt(bars, s).value.high))
  {
    hide BarAt, PricesAt, PrintedAt, Matches;
    var prices := PricesAt(trades, s);
    forall p ensures p in prices <==> PrintedAt(trades, s, p) { PriceIsPrinted(trades, s, p); }
    if BarAt(bars, s).Some? {
      MatchesMeans(prices, BarAt(bars, s).value);
    } else if prices == [] {
      forall p ensures !PrintedAt(trades, s, p) { assert p !in prices; }
    } else {
      assert prices[0] in prices && PrintedAt(trades, s, prices[0]);
    }
  }
}
