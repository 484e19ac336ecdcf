/** _max_rise_pct of scripts/momentum_condition_parity.py: the greatest percentage rise of a trade over
    any trade in the window before it, by a monotonic deque over groups of equal timestamps. */
module RiseWindow {
  import opened Wrappers

  /** Timestamps are milliseconds. */
  datatype Trade = Trade(ts: int, price: real)

  datatype Failure = ZeroReference

  // ---------------------------------------------------------------- what is computed

  function Rise(price: real, reference: real): real
    requires reference != 0.0
  {
    (price / reference - 1.0) * 100.0
  }

  /** Trade b lies in the window before trade a: not at a's own timestamp. */
  predicate InWindow(a: Trade, b: Trade, windowMs: int) {
    a.ts - windowMs <= b.ts < a.ts
  }

  /** `low` is the least price in the window before `a`. */
  ghost predicate IsWindowLow(trades: seq<Trade>, windowMs: int, a: Trade, low: real) {
    && (exists b :: b in trades && InWindow(a, b, windowMs) && b.price == low)
    && (forall b :: b in trades && InWindow(a, b, windowMs) ==> low <= b.price)
  }

  /** The greatest rise, over a window low, of the trades `of` within all the trades; none when none
      of them has a window. */
  ghost predicate BestRise(of: seq<Trade>, trades: seq<Trade>, windowMs: int, r: Option<real>) {
    match r
    case None => forall a, b :: a in of && b in trades ==> !InWindow(a, b, windowMs)
    case Some(best) =>
      && (exists a, low :: a in of && IsWindowLow(trades, windowMs, a, low) && low != 0.0 && best == Rise(a.price, low))
      && (forall a, low :: a in of && IsWindowLow(trades, windowMs, a, low) ==>
           low != 0.0 && Rise(a.price, low) <= best)
  }

  /** The answer for prices of any sign: the greatest rise over a window low, or a failure when some
      window low is zero. */
  ghost predicate Answers(trades: seq<Trade>, windowMs: int, r: Result<Option<real>, Failure>) {
    match r
    case Err(_) => exists a :: a in trades && IsWindowLow(trades, windowMs, a, 0.0)
    case Ok(best) => BestRise(trades, trades, windowMs, best)
  }

  // ---------------------------------------------------------------- all pairs

  /** The greatest rise over all pairs, none when there is no pair. */
  ghost predicate IsMaxRise(trades: seq<Trade>, windowMs: int, r: Option<real>) {
    match r
    case None => forall a, b :: a in trades && b in trades ==> !InWindow(a, b, windowMs)
    case Some(best) =>
      && (exists a, b ::
           a in trades && b in trades && InWindow(a, b, windowMs) && b.price != 0.0 && best == Rise(a.price, b.price))
      && (forall a, b :: a in trades && b in trades && InWindow(a, b, windowMs) && b.price != 0.0 ==>
           Rise(a.price, b.price) <= best)
  }

  ghost predicate Positive(trades: seq<Trade>) {
    forall t :: t in trades ==> t.price > 0.0
  }

  predicate SameSign(x: real, y: real) { (x > 0.0 && y > 0.0) || (x < 0.0 && y < 0.0) }

  /** The rise over the least reference is at least that over another one. */
  predicate LowServes(price: real, low: real, reference: real) {
    || price == 0.0
    || (price > 0.0 && SameSign(low, reference))
    || (price < 0.0 && (SameSign(low, reference) ==> low == reference))
  }

  lemma {:induction false} LowServesExactly(price: real, low: real, reference: real)
    requires low <= reference && low != 0.0 && reference != 0.0
    ensures Rise(price, reference) <= Rise(price, low) <==> LowServes(price, low, reference)
  {
    if SameSign(low, reference) {
      QuotientOrder(price, reference, low);
    } else {
      MixedQuotients(price, reference, low);
    }
  }

  lemma {:induction false} QuotientOrder(p: real, x: real, low: real)
    requires low <= x && SameSign(low, x)
    ensures p / x <= p / low <==> p >= 0.0 || x == low
  {
    var u, v := p / x, p / low;
    assert u * x == p == v * low;
    assert (v - u) * low == u * (x - low);
    SignOfProduct(v - u, low);
    SignOfProduct(u, x - low);
    SignOfProduct(u, x);
  }

  lemma {:induction false} MixedQuotients(p: real, x: real, low: real)
    requires low < 0.0 < x
    ensures p / x <= p / low <==> p <= 0.0
  {
    var u, v := p / x, p / low;
    assert u * x == p == v * low;
    SignOfProduct(u, x);
    SignOfProduct(v, low);
  }

  lemma {:induction false} SignOfProduct(a: real, b: real)
    ensures a * b > 0.0 <==> SameSign(a, b)
    ensures a * b == 0.0 <==> a == 0.0 || b == 0.0
  {
  }

  lemma {:induction false} WindowLow(trades: seq<Trade>, windowMs: int, a: Trade, b: Trade) returns (low: real)
    requires b in trades && InWindow(a, b, windowMs)
    ensures IsWindowLow(trades, windowMs, a, low)
  {
    var front, last := trades[..|trades| - 1], trades[|trades| - 1];
    assert trades == front + [last];
    if c :| c in front && InWindow(a, c, windowMs) {
      low := WindowLow(front, windowMs, a, c);
      if InWindow(a, last, windowMs) && last.price < low { low := last.price; }
    } else {
      low := b.price;
    }
  }

  /** The window low gives the trade its greatest rise exactly when it serves every reference of the window: for a
      positive price all of them have its sign, for a negative one those of its sign equal it. */
  lemma {:induction false} LowIsGreatest(trades: seq<Trade>, windowMs: int, a: Trade, low: real)
    requires IsWindowLow(trades, windowMs, a, low) && low != 0.0
    ensures (forall b :: b in trades && InWindow(a, b, windowMs) && b.price != 0.0 ==>
      Rise(a.price, b.price) <= Rise(a.price, low))
      <==> (forall b :: b in trades && InWindow(a, b, windowMs) && b.price != 0.0 ==> LowServes(a.price, low, b.price))
  {
    hide Rise, LowServes;
    forall b | b in trades && InWindow(a, b, windowMs) && b.price != 0.0
      ensures Rise(a.price, b.price) <= Rise(a.price, low) <==> LowServes(a.price, low, b.price)
    {
      LowServesExactly(a.price, low, b.price);
    }
  }

  /** Every trade's window low serves its window. */
  ghost predicate LowsServe(trades: seq<Trade>, windowMs: int) {
    forall a, b, low ::
      && a in trades && b in trades && InWindow(a, b, windowMs) && b.price != 0.0
      && IsWindowLow(trades, windowMs, a, low) ==>
        LowServes(a.price, low, b.price)
  }

  /** Then the answer is the greatest rise over all pairs of the window. */
  lemma {:induction false} LowsSuffice(trades: seq<Trade>, windowMs: int, best: Option<real>)
    requires LowsServe(trades, windowMs) && Answers(trades, windowMs, Ok(best))
    ensures IsMaxRise(trades, windowMs, best)
  {
    hide Rise, LowServes;
    if best.Some? {
      forall a, b | a in trades && b in trades && InWindow(a, b, windowMs) && b.price != 0.0
        ensures Rise(a.price, b.price) <= best.value
      {
        var low := WindowLow(trades, windowMs, a, b);
        LowServesExactly(a.price, low, b.price);
      }
      var a, low :| a in trades && IsWindowLow(trades, windowMs, a, low) && low != 0.0 &&
        best.value == Rise(a.price, low);
      var b :| b in trades && InWindow(a, b, windowMs) && b.price == low;
    }
  }

  /** For positive prices the answer is the greatest rise over all pairs of the window. */
  lemma {:induction false} PositivePrices(trades: seq<Trade>, windowMs: int, r: Result<Option<real>, Failure>)
    requires Positive(trades) && Answers(trades, windowMs, r)
    ensures r.Ok? && IsMaxRise(trades, windowMs, r.value)
  {
    LowsSuffice(trades, windowMs, r.value);
  }

  /** With negative prices the least reference is not the one risen from most: the only answer here is 100
      percent, though the third trade rose by 200 percent over the first. */
  lemma {:induction false} NegativePricesUnderreport(r: Result<Option<real>, Failure>)
    requires Answers([Trade(0, -1.0), Trade(1, -2.0), Trade(2, -3.0)], 1000, r)
    ensures r == Ok(Some(100.0)) && Rise(-3.0, -1.0) == 200.0
    ensures !IsMaxRise([Trade(0, -1.0), Trade(1, -2.0), Trade(2, -3.0)], 1000, r.value)
  {
    hide Rise;
    var a, b, c := Trade(0, -1.0), Trade(1, -2.0), Trade(2, -3.0);
    var trades := [a, b, c];
    assert a in trades && b in trades && c in trades;
    assert InWindow(b, a, 1000) && InWindow(c, a, 1000) && InWindow(c, b, 1000);
    assert IsWindowLow(trades, 1000, b, -1.0) && IsWindowLow(trades, 1000, c, -2.0);
    RiseIs(-2.0, -1.0, 2.0);
    RiseIs(-3.0, -2.0, 1.5);
    RiseIs(-3.0, -1.0, 3.0);
    forall t, low | t in trades && IsWindowLow(trades, 1000, t, low)
      ensures (t == b && low == -1.0) || (t == c && low == -2.0)
    {
      ThreeLows(t, low);
    }
    hide IsWindowLow;
  }

  lemma {:induction false} ThreeLows(t: Trade, low: real)
    requires var trades := [Trade(0, -1.0), Trade(1, -2.0), Trade(2, -3.0)];
      t in trades && IsWindowLow(trades, 1000, t, low)
    ensures (t == Trade(1, -2.0) && low == -1.0) || (t == Trade(2, -3.0) && low == -2.0)
  {
    var a, b, c := Trade(0, -1.0), Trade(1, -2.0), Trade(2, -3.0);
    assert t == a || t == b || t == c;
    assert [a, b, c][1] == b && InWindow(c, b, 1000) && InWindow(b, a, 1000) && [a, b, c][0] == a;
  }

  lemma {:induction false} RiseIs(price: real, reference: real, q: real)
    requires reference != 0.0 && q * reference == price
    ensures Rise(price, reference) == (q - 1.0) * 100.0
  {
    assert price / reference == q;
  }

  // ---------------------------------------------------------------- sorting

  ghost predicate Sorted(trades: seq<Trade>) {
    forall i, j :: 0 <= i < j < |trades| ==> trades[i].ts <= trades[j].ts
  }

  function Insert(t: Trade, r: seq<Trade>): seq<Trade> {
    if r == [] || r[|r| - 1].ts <= t.ts then r + [t] else Insert(t, r[..|r| - 1]) + [r[|r| - 1]]
  }

  /** `sorted` by timestamp: stable. */
  function SortByTime(trades: seq<Trade>): seq<Trade> {
    if trades == [] then [] else Insert(trades[|trades| - 1], SortByTime(trades[..|trades| - 1]))
  }

  lemma {:induction false} InsertMembers(t: Trade, r: seq<Trade>)
    ensures forall x :: x in Insert(t, r) <==> x == t || x in r
  {
    if r != [] && r[|r| - 1].ts > t.ts {
      InsertMembers(t, r[..|r| - 1]);
      assert r == r[..|r| - 1] + [r[|r| - 1]];
    }
  }

  lemma {:induction false} InsertSorted(t: Trade, r: seq<Trade>)
    requires Sorted(r)
    ensures Sorted(Insert(t, r))
  {
    if r != [] && r[|r| - 1].ts > t.ts {
      var front, last := r[..|r| - 1], r[|r| - 1];
      InsertSorted(t, front);
      InsertMembers(t, front);
      var i := Insert(t, front);
      forall k | 0 <= k < |i| ensures i[k].ts <= last.ts {
        assert i[k] == t || i[k] in front;
      }
    }
  }

  lemma {:induction false} SortSorts(trades: seq<Trade>)
    ensures Sorted(SortByTime(trades))
    ensures forall x :: x in SortByTime(trades) <==> x in trades
  {
    if trades != [] {
      var front, last := trades[..|trades| - 1], trades[|trades| - 1];
      SortSorts(front);
      InsertSorted(last, SortByTime(front));
      InsertMembers(last, SortByTime(front));
      assert trades == front + [last];
    }
  }

  // ---------------------------------------------------------------- the deque

  datatype Reference = Reference(ts: int, price: real)

  /** Later references are strictly dearer. */
  ghost predicate Monotonic(refs: seq<Reference>) {
    forall i, j :: 0 <= i < j < |refs| ==> refs[i].ts < refs[j].ts && refs[i].price < refs[j].price
  }

  /** Some reference is no earlier and no dearer than t. */
  ghost predicate Covered(refs: seq<Reference>, t: Trade) {
    exists k :: 0 <= k < |refs| && t.ts <= refs[k].ts && refs[k].price <= t.price
  }

  /** The references are trades seen, and cover every trade seen from `floor` on. */
  ghost predicate Tracks(refs: seq<Reference>, seen: seq<Trade>, floor: int) {
    && Monotonic(refs)
    && (forall k :: 0 <= k < |refs| ==> Trade(refs[k].ts, refs[k].price) in seen)
    && (forall t :: t in seen && floor <= t.ts ==> Covered(refs, t))
  }

  method DropOld(refs: seq<Reference>, start: int, ghost seen: seq<Trade>, ghost floor: int) returns (r: seq<Reference>)
    requires Tracks(refs, seen, floor) && floor <= start
    ensures Tracks(r, seen, start) && forall k :: 0 <= k < |r| ==> start <= r[k].ts
  {
    r := refs;
    assert Tracks(r, seen, start);
    while r != [] && r[0].ts < start
      invariant Tracks(r, seen, start)
      decreases |r|
    {
      TailTracks(r, seen, start);
      r := r[1..];
    }
  }

  lemma {:induction false} TailTracks(refs: seq<Reference>, seen: seq<Trade>, start: int)
    requires Tracks(refs, seen, start) && refs != [] && refs[0].ts < start
    ensures Tracks(refs[1..], seen, start)
  {
    hide Covered;
    var r := refs[1..];
    assert forall k :: 0 <= k < |r| ==> r[k] == refs[k + 1];
    forall t | t in seen && start <= t.ts ensures Covered(r, t) { TailCovers(refs, t, start); }
  }

  lemma {:induction false} TailCovers(refs: seq<Reference>, t: Trade, start: int)
    requires refs != [] && refs[0].ts < start <= t.ts && Covered(refs, t)
    ensures Covered(refs[1..], t)
  {
    var k :| 0 <= k < |refs| && t.ts <= refs[k].ts && refs[k].price <= t.price;
    assert refs[1..][k - 1] == refs[k];
  }

  /** A new group takes the place of every reference at least as dear. */
  method Push(
      refs: seq<Reference>, ts: int, low: real, ghost seen: seq<Trade>, ghost group: seq<Trade>, ghost floor: int)
    returns (r: seq<Reference>)
    requires Tracks(refs, seen, floor) && forall t :: t in seen ==> t.ts < ts
    requires Trade(ts, low) in group && forall t :: t in group ==> t.ts == ts && low <= t.price
    ensures Tracks(r, seen + group, floor)
  {
    r := refs;
    while r != [] && r[|r| - 1].price >= low
      invariant |r| <= |refs| && r == refs[..|r|]
      invariant forall k :: |r| <= k < |refs| ==> low <= refs[k].price
      decreases |r|
    {
      r := r[..|r| - 1];
    }
    PushTracks(refs, |r|, ts, low, seen, group, floor);
    r := r + [Reference(ts, low)];
  }

  lemma {:induction false} PushTracks(
      refs: seq<Reference>, n: nat, ts: int, low: real, seen: seq<Trade>, group: seq<Trade>, floor: int)
    requires Tracks(refs, seen, floor) && n <= |refs| && (n > 0 ==> refs[n - 1].price < low)
    requires forall t :: t in seen ==> t.ts < ts
    requires forall k :: n <= k < |refs| ==> low <= refs[k].price
    requires Trade(ts, low) in group && forall t :: t in group ==> t.ts == ts && low <= t.price
    ensures Tracks(refs[..n] + [Reference(ts, low)], seen + group, floor)
  {
    hide Monotonic, Covered;
    var r := refs[..n] + [Reference(ts, low)];
    forall k | 0 <= k < |r| ensures Trade(r[k].ts, r[k].price) in seen + group {
      if k < n { assert Trade(refs[k].ts, refs[k].price) in seen; }
    }
    PushMonotonic(refs, n, ts, low, seen);
    forall t | t in seen + group && floor <= t.ts ensures Covered(r, t) {
      if t in seen {
        PushCovers(refs, n, ts, low, t);
      } else {
        LastCovers(r, t);
      }
    }
  }

  lemma {:induction false} LastCovers(r: seq<Reference>, t: Trade)
    requires r != [] && t.ts <= r[|r| - 1].ts && r[|r| - 1].price <= t.price
    ensures Covered(r, t)
  {
  }

  lemma {:induction false} PushMonotonic(refs: seq<Reference>, n: nat, ts: int, low: real, seen: seq<Trade>)
    requires Monotonic(refs) && n <= |refs| && (n > 0 ==> refs[n - 1].price < low)
    requires forall k :: 0 <= k < |refs| ==> Trade(refs[k].ts, refs[k].price) in seen
    requires forall t :: t in seen ==> t.ts < ts
    ensures Monotonic(refs[..n] + [Reference(ts, low)])
  {
  }

  lemma {:induction false} PushCovers(refs: seq<Reference>, n: nat, ts: int, low: real, t: Trade)
    requires n <= |refs| && Covered(refs, t) && t.ts < ts
    requires forall k :: n <= k < |refs| ==> low <= refs[k].price
    ensures Covered(refs[..n] + [Reference(ts, low)], t)
  {
    var r := refs[..n] + [Reference(ts, low)];
    var k :| 0 <= k < |refs| && t.ts <= refs[k].ts && refs[k].price <= t.price;
    if k < n { assert r[k] == refs[k]; } else { assert t.ts <= r[n].ts && r[n].price <= t.price; }
  }

  /** The front of the deque is the window low of every trade of the next group. */
  lemma {:induction false} FrontIsWindowLow(refs: seq<Reference>, ordered: seq<Trade>, n: nat, windowMs: int, a: Trade)
    requires Sorted(ordered) && n <= |ordered| && Tracks(refs, ordered[..n], a.ts - windowMs)
    requires forall k :: 0 <= k < |refs| ==> a.ts - windowMs <= refs[k].ts
    requires forall k :: 0 <= k < n ==> ordered[k].ts < a.ts
    requires forall k :: n <= k < |ordered| ==> a.ts <= ordered[k].ts
    ensures refs != [] ==> IsWindowLow(ordered, windowMs, a, refs[0].price)
    ensures refs == [] ==> forall b :: b in ordered ==> !InWindow(a, b, windowMs)
  {
    hide Tracks;
    forall b | b in ordered && InWindow(a, b, windowMs) ensures refs != [] && refs[0].price <= b.price {
      var k :| 0 <= k < |ordered| && ordered[k] == b;
      assert ordered[..n][k] == b;
      FrontCovers(refs, ordered[..n], a.ts - windowMs, b);
    }
    if refs != [] { FrontSeen(refs, ordered[..n], a.ts - windowMs); }
    if refs != [] {
      var t := Trade(refs[0].ts, refs[0].price);
      assert t in ordered[..n];
      assert InWindow(a, t, windowMs);
    }
  }

  lemma {:induction false} FrontCovers(refs: seq<Reference>, seen: seq<Trade>, floor: int, b: Trade)
    requires Tracks(refs, seen, floor) && b in seen && floor <= b.ts
    ensures refs != [] && refs[0].price <= b.price
  {
    assert Covered(refs, b);
    var k :| 0 <= k < |refs| && b.ts <= refs[k].ts && refs[k].price <= b.price;
  }

  lemma {:induction false} FrontSeen(refs: seq<Reference>, seen: seq<Trade>, floor: int)
    requires Tracks(refs, seen, floor) && refs != []
    ensures Trade(refs[0].ts, refs[0].price) in seen
  {
  }

  // ---------------------------------------------------------------- the answer

  lemma {:induction false} WindowLowUnique(trades: seq<Trade>, windowMs: int, a: Trade, x: real, y: real)
    requires IsWindowLow(trades, windowMs, a, x) && IsWindowLow(trades, windowMs, a, y)
    ensures x == y
  {
  }

  function Best(a: Option<real>, b: real): real {
    if a.Some? && a.value >= b then a.value else b
  }

  /** One more trade against a known window low. */
  lemma {:induction false} BestRiseAppend(
      of: seq<Trade>, trades: seq<Trade>, windowMs: int, r: Option<real>, a: Trade, low: real)
    requires BestRise(of, trades, windowMs, r) && IsWindowLow(trades, windowMs, a, low) && low != 0.0
    ensures BestRise(of + [a], trades, windowMs, Some(Best(r, Rise(a.price, low))))
  {
    hide Rise, IsWindowLow;
    var best := Best(r, Rise(a.price, low));
    forall c, l | c in of + [a] && IsWindowLow(trades, windowMs, c, l) ensures l != 0.0 && Rise(c.price, l) <= best {
      if c in of {
        if r.None? { HasWindow(trades, windowMs, c, l); }
      } else {
        WindowLowUnique(trades, windowMs, a, l, low);
      }
    }
    if r.Some? && r.value >= Rise(a.price, low) {
      var c, l :| c in of && IsWindowLow(trades, windowMs, c, l) && l != 0.0 && r.value == Rise(c.price, l);
      assert c in of + [a];
    } else {
      assert a in of + [a];
    }
  }

  lemma {:induction false} HasWindow(trades: seq<Trade>, windowMs: int, a: Trade, low: real)
    requires IsWindowLow(trades, windowMs, a, low)
    ensures exists b :: b in trades && InWindow(a, b, windowMs)
  {
  }

  /** Trades without a window change nothing. */
  lemma {:induction false} BestRiseWithout(
      of: seq<Trade>, group: seq<Trade>, trades: seq<Trade>, windowMs: int, r: Option<real>)
    requires BestRise(of, trades, windowMs, r)
    requires forall a, b :: a in group && b in trades ==> !InWindow(a, b, windowMs)
    ensures BestRise(of + group, trades, windowMs, r)
  {
    hide Rise, IsWindowLow, InWindow;
    match r
    case None =>
    case Some(best) =>
      var c, l :| c in of && IsWindowLow(trades, windowMs, c, l) && l != 0.0 && best == Rise(c.price, l);
      assert c in of + group;
      forall a, low | a in of + group && IsWindowLow(trades, windowMs, a, low)
        ensures low != 0.0 && Rise(a.price, low) <= best
      {
        HasWindow(trades, windowMs, a, low);
      }
  }

  /** The answer depends on which trades there are, not on their order. */
  lemma {:induction false} AnswersAnyOrder(
      ordered: seq<Trade>, trades: seq<Trade>, windowMs: int, r: Result<Option<real>, Failure>)
    requires forall x :: x in ordered <==> x in trades
    requires Answers(ordered, windowMs, r)
    ensures Answers(trades, windowMs, r)
  {
    hide Rise;
    forall a, low ensures IsWindowLow(ordered, windowMs, a, low) == IsWindowLow(trades, windowMs, a, low) { }
  }

  /** The end of the group that starts at `from`. */
  method GroupEnd(ordered: seq<Trade>, from: nat) returns (to: nat)
    requires Sorted(ordered) && from < |ordered|
    ensures from < to <= |ordered|
    ensures forall k :: from <= k < to ==> ordered[k].ts == ordered[from].ts
    ensures forall k :: to <= k < |ordered| ==> ordered[k].ts > ordered[from].ts
  {
    to := from;
    while to < |ordered| && ordered[to].ts == ordered[from].ts
      invariant from <= to <= |ordered|
      invariant forall k :: from <= k < to ==> ordered[k].ts == ordered[from].ts
    {
      to := to + 1;
    }
  }

  method GroupLow(group: seq<Trade>, ghost ts: int) returns (low: real)
    requires group != [] && forall k :: 0 <= k < |group| ==> group[k].ts == ts
    ensures Trade(ts, low) in group && forall t :: t in group ==> t.ts == ts && low <= t.price
  {
    low := group[0].price;
    assert group[0] == Trade(ts, low);
    for k := 1 to |group|
      invariant exists m :: 0 <= m < |group| && group[m] == Trade(ts, low)
      invariant forall m :: 0 <= m < k ==> low <= group[m].price
    {
      assert group[k] == Trade(ts, group[k].price);
      if group[k].price < low { low := group[k].price; }
    }
  }

  /** Every trade of a group against the deque's front. */
  method GroupRises(group: seq<Trade>, low: real, best: Option<real>, ghost seen: seq<Trade>, ghost trades: seq<Trade>,
                    ghost windowMs: int)
    returns (r: Option<real>)
    requires low != 0.0 && BestRise(seen, trades, windowMs, best)
    requires forall k :: 0 <= k < |group| ==> IsWindowLow(trades, windowMs, group[k], low)
    ensures BestRise(seen + group, trades, windowMs, r)
  {
    hide BestRise, IsWindowLow;
    r := best;
    assert seen + group[..0] == seen;
    for k := 0 to |group|
      invariant BestRise(seen + group[..k], trades, windowMs, r)
    {
      var move := (group[k].price / low - 1.0) * 100.0;
      BestRiseAppend(seen + group[..k], trades, windowMs, r, group[k], low);
      assert seen + group[..k + 1] == seen + group[..k] + [group[k]];
      r := if r.None? then Some(move) else Some(if r.value >= move then r.value else move);
    }
    assert group[..|group|] == group;
  }

  method MaxRisePct(trades: seq<Trade>, windowSeconds: int) returns (r: Result<Option<real>, Failure>)
    ensures Answers(trades, windowSeconds * 1000, r)
  {
    hide Tracks, BestRise, IsWindowLow, Answers, InWindow, Sorted, SortByTime, Split, Monotonic, Covered, Rise;
    var windowMs := windowSeconds * 1000;
    var ordered := SortByTime(trades);
    SortSorts(trades);
    var refs: seq<Reference> := [];
    var best: Option<real> := None;
    ghost var floor := if ordered == [] then 0 else ordered[0].ts - windowMs;
    var index: nat := 0;
    NothingSeen(ordered, windowMs, floor);
    SplitStart(ordered);
    while index < |ordered|
      invariant index <= |ordered| && Tracks(refs, ordered[..index], floor)
      invariant BestRise(ordered[..index], ordered, windowMs, best)
      invariant Split(ordered, index)
      invariant index < |ordered| ==> floor <= ordered[index].ts - windowMs
    {
      var timestamp := ordered[index].ts;
      var next := GroupEnd(ordered, index);
      var group := ordered[index..next];
      var windowStart := timestamp - windowMs;
      refs := DropOld(refs, windowStart, ordered[..index], floor);
      floor := windowStart;
      GroupWindow(refs, ordered, index, next, windowMs);
      if refs != [] {
        var reference := refs[0].price;
        if reference == 0.0 {
          ZeroFails(ordered, trades, windowMs, group[0]);
          return Err(ZeroReference);
        }
        best := GroupRises(group, reference, best, ordered[..index], ordered, windowMs);
      } else {
        BestRiseWithout(ordered[..index], group, ordered, windowMs, best);
      }
      var groupLow := GroupLow(group, timestamp);
      SplitBefore(ordered, index);
      SplitNext(ordered, index, next);
      refs := Push(refs, timestamp, groupLow, ordered[..index], group, floor);
      assert ordered[..next] == ordered[..index] + group;
      index := next;
    }
    assert ordered[..|ordered|] == ordered;
    r := Ok(best);
    AnswerFound(ordered, windowMs, best);
    AnswersAnyOrder(ordered, trades, windowMs, r);
  }

  /** No timestamp lies on both sides of position n. */
  ghost predicate Split(ordered: seq<Trade>, n: nat) {
    forall j, k :: 0 <= j < n <= k < |ordered| ==> ordered[j].ts < ordered[k].ts
  }

  lemma {:induction false} SplitStart(ordered: seq<Trade>)
    ensures Split(ordered, 0)
  {
  }

  lemma {:induction false} SplitBefore(ordered: seq<Trade>, n: nat)
    requires Split(ordered, n) && n < |ordered|
    ensures forall t :: t in ordered[..n] ==> t.ts < ordered[n].ts
  {
  }

  lemma {:induction false} SplitNext(ordered: seq<Trade>, n: nat, m: nat)
    requires Split(ordered, n) && n < m <= |ordered|
    requires forall k :: n <= k < m ==> ordered[k].ts == ordered[n].ts
    requires forall k :: m <= k < |ordered| ==> ordered[k].ts > ordered[n].ts
    ensures Split(ordered, m)
  {
    forall j, k | 0 <= j < m <= k < |ordered| ensures ordered[j].ts < ordered[k].ts {
      assert j < n ==> ordered[j].ts < ordered[n].ts;
    }
  }

  /** The deque's front is the window low of the whole group; an empty deque, no window. */
  lemma {:induction false} GroupWindow(refs: seq<Reference>, ordered: seq<Trade>, n: nat, m: nat, windowMs: int)
    requires Sorted(ordered) && Split(ordered, n) && n < m <= |ordered|
    requires Tracks(refs, ordered[..n], ordered[n].ts - windowMs)
    requires forall k :: 0 <= k < |refs| ==> ordered[n].ts - windowMs <= refs[k].ts
    requires forall k :: n <= k < m ==> ordered[k].ts == ordered[n].ts
    ensures refs != [] ==> forall k :: 0 <= k < m - n ==>
      IsWindowLow(ordered, windowMs, ordered[n..m][k], refs[0].price)
    ensures refs == [] ==> forall a, b :: a in ordered[n..m] && b in ordered ==> !InWindow(a, b, windowMs)
  {
    hide Tracks, IsWindowLow, InWindow;
    forall k | 0 <= k < m - n
      ensures refs != [] ==> IsWindowLow(ordered, windowMs, ordered[n..m][k], refs[0].price)
      ensures refs == [] ==> forall b :: b in ordered ==> !InWindow(ordered[n..m][k], b, windowMs)
    {
      FrontIsWindowLow(refs, ordered, n, windowMs, ordered[n + k]);
    }
  }

  lemma {:induction false} NothingSeen(trades: seq<Trade>, windowMs: int, floor: int)
    ensures Tracks([], trades[..0], floor) && BestRise(trades[..0], trades, windowMs, None)
  {
  }

  lemma {:induction false} AnswerFound(trades: seq<Trade>, windowMs: int, best: Option<real>)
    requires BestRise(trades, trades, windowMs, best)
    ensures Answers(trades, windowMs, Ok(best))
  {
  }

  lemma {:induction false} ZeroFails(ordered: seq<Trade>, trades: seq<Trade>, windowMs: int, a: Trade)
    requires forall x :: x in ordered <==> x in trades
    requires a in ordered && IsWindowLow(ordered, windowMs, a, 0.0)
    ensures Answers(trades, windowMs, Err(ZeroReference))
  {
    assert IsWindowLow(trades, windowMs, a, 0.0);
  }

  // ---------------------------------------------------------------- in times and prices

  /** Trade b lies in the window before trade a, ends included but a's own time not. */
  predicate Precedes(b: Trade, a: Trade, windowMs: int) { b.ts < a.ts && a.ts - b.ts <= windowMs }

  predicate RoseAtMost(a: Trade, b: Trade, pct: real) { a.price <= b.price * (1.0 + pct / 100.0) }

  predicate RoseBy(a: Trade, b: Trade, pct: real) { a.price == b.price * (1.0 + pct / 100.0) }

  /** For positive prices the answer says: no trade rose by more over any trade of the window before it, and one rose
      by just that; there is none exactly when no trade has another in its window. */
  lemma {:induction false} RiseInFields(trades: seq<Trade>, windowMs: int, r: Result<Option<real>, Failure>)
    requires Positive(trades) && Answers(trades, windowMs, r)
    ensures r.Ok?
    ensures r.value.None? ==> forall a, b :: a in trades && b in trades ==> !Precedes(b, a, windowMs)
    ensures r.value.Some? ==>
      && (forall a, b :: a in trades && b in trades && Precedes(b, a, windowMs) ==> RoseAtMost(a, b, r.value.value))
      && exists a, b :: a in trades && b in trades && Precedes(b, a, windowMs) && RoseBy(a, b, r.value.value)
  {
    PositivePrices(trades, windowMs, r);
    hide Rise, Answers, IsMaxRise, Positive, InWindow, Precedes, RoseAtMost, RoseBy;
    if r.value.None? {
      NoPair(trades, windowMs);
    } else {
      var best := r.value.value;
      forall a, b | a in trades && b in trades && Precedes(b, a, windowMs) ensures RoseAtMost(a, b, best) {
        MaxBounds(trades, windowMs, best, a, b);
      }
      var a, b := MaxIsReached(trades, windowMs, best);
    }
  }

  lemma {:induction false} NoPair(trades: seq<Trade>, windowMs: int)
    requires IsMaxRise(trades, windowMs, None)
    ensures forall a, b :: a in trades && b in trades ==> !Precedes(b, a, windowMs)
  {
    WindowInFields(windowMs);
  }

  lemma {:induction false} MaxBounds(trades: seq<Trade>, windowMs: int, best: real, a: Trade, b: Trade)
    requires Positive(trades) && IsMaxRise(trades, windowMs, Some(best))
    requires a in trades && b in trades && Precedes(b, a, windowMs)
    ensures RoseAtMost(a, b, best)
  {
    hide Rise;
    RiseBound(a.price, b.price, best);
    assert InWindow(a, b, windowMs);
  }

  lemma {:induction false} MaxIsReached(trades: seq<Trade>, windowMs: int, best: real) returns (a: Trade, b: Trade)
    requires Positive(trades) && IsMaxRise(trades, windowMs, Some(best))
    ensures a in trades && b in trades && Precedes(b, a, windowMs) && RoseBy(a, b, best)
  {
    hide Rise;
    a, b :| a in trades && b in trades && InWindow(a, b, windowMs) && b.price != 0.0 && best == Rise(a.price, b.price);
    RiseBound(a.price, b.price, best);
  }

  lemma {:induction false} WindowInFields(windowMs: int)
    ensures forall a, b :: InWindow(a, b, windowMs) <==> Precedes(b, a, windowMs)
  {
  }

  lemma {:induction false} RiseBound(price: real, reference: real, best: real)
    requires reference > 0.0
    ensures Rise(price, reference) <= best ==> price <= reference * (1.0 + best / 100.0)
    ensures Rise(price, reference) == best ==> price == reference * (1.0 + best / 100.0)
  {
    var q := price / reference;
    assert q * reference == price;
    if Rise(price, reference) <= best { assert (1.0 + best / 100.0 - q) * reference >= 0.0; }
  }
}
