/** pair_exits of scripts/actual_resting_entry_extrema.py: first-in first-out matching of sells against
    the open buys of one day, account and symbol.

    Lay the buys of a key end to end on a line of shares. A sell consumes the next stretch of that
    line, as far as the line reaches. What a sell takes from a buy is the overlap of the two stretches. */
module ExitPairing {
  import opened Arithmetic
  import opened Fills

  datatype Key = Key(day: string, account: string, symbol: string)

  /** An entry in a queue: a buy and what is still open of it. */
  datatype Open = Open(entry: nat, quantity: real)

  function KeyOf(f: Fill): Key { Key(f.day, f.account, f.symbol) }

  predicate Is(f: Fill, key: Key, side: Side) { KeyOf(f) == key && f.side == side }

  // ---------------------------------------------------------------- the line of shares

  /** Shares bought under the key by the first n fills. */
  function Bought(fills: seq<Fill>, key: Key, n: nat): real
    requires n <= |fills|
  {
    if n == 0 then 0.0
    else Bought(fills, key, n - 1) + if Is(fills[n - 1], key, Buy) then fills[n - 1].quantity else 0.0
  }

  /** A sell of no shares or fewer closes nothing. */
  function Demand(f: Fill): real { Max(f.quantity, 0.0) }

  /** Shares closed under the key by the first n fills: a sell beyond the inventory closes only that. */
  function Sold(fills: seq<Fill>, key: Key, n: nat): real
    requires n <= |fills|
  {
    if n == 0 then 0.0
    else
      var before := Sold(fills, key, n - 1);
      if Is(fills[n - 1], key, Sell) then Min(before + Demand(fills[n - 1]), Bought(fills, key, n - 1)) else before
  }

  function Overlap(lo: real, hi: real, from: real, to: real): real { Max(Min(hi, to) - Max(lo, from), 0.0) }

  /** What fill s takes from buy b. */
  function Taken(fills: seq<Fill>, b: nat, s: nat): real
    requires b < |fills| && s < |fills|
  {
    var key := KeyOf(fills[b]);
    Overlap(Bought(fills, key, b), Bought(fills, key, b + 1), Sold(fills, key, s), Sold(fills, key, s + 1))
  }

  /** The exits of buy b by the first n fills, oldest first. */
  function Exits(fills: seq<Fill>, b: nat, n: nat): seq<Exit>
    requires b < |fills| && n <= |fills|
  {
    if n == 0 then []
    else if Taken(fills, b, n - 1) > 0.0 then
      Exits(fills, b, n - 1) + [Exit(Taken(fills, b, n - 1), fills[n - 1])]
    else Exits(fills, b, n - 1)
  }

  /** Fills are separate objects, and no buy has a negative quantity. */
  ghost predicate Loaded(fills: seq<Fill>) {
    && (forall i, j :: 0 <= i < j < |fills| ==> fills[i] != fills[j])
    && (forall i :: 0 <= i < |fills| && fills[i].side == Buy ==> fills[i].quantity >= 0.0)
  }

  lemma {:induction false} BoughtGrows(fills: seq<Fill>, key: Key, m: nat, n: nat)
    requires Loaded(fills) && m <= n <= |fills|
    ensures 0.0 <= Bought(fills, key, m) <= Bought(fills, key, n)
  {
    if m < n { BoughtGrows(fills, key, m, n - 1); } else if m > 0 { BoughtGrows(fills, key, m - 1, m - 1); }
  }

  lemma {:induction false} SoldGrows(fills: seq<Fill>, key: Key, m: nat, n: nat)
    requires Loaded(fills) && m <= n <= |fills|
    ensures 0.0 <= Sold(fills, key, m) <= Sold(fills, key, n)
    ensures Sold(fills, key, n) <= Bought(fills, key, n)
  {
    BoughtGrows(fills, key, n, n);
    if m < n {
      SoldGrows(fills, key, m, n - 1);
      BoughtGrows(fills, key, n - 1, n);
    } else if m > 0 {
      SoldGrows(fills, key, m - 1, m - 1);
      BoughtGrows(fills, key, m - 1, m);
    }
  }

  // ---------------------------------------------------------------- conservation

  /** Open shares of the key. */
  function Inventory(fills: seq<Fill>, key: Key, n: nat): real
    requires n <= |fills|
  {
    Bought(fills, key, n) - Sold(fills, key, n)
  }

  /** The fill is of the key's day, account and symbol. */
  predicate Books(f: Fill, key: Key) { f.day == key.day && f.account == key.account && f.symbol == key.symbol }

  /** Inventory starts empty, rises by a buy's quantity, falls by a sell's but not below zero, and is otherwise
      kept: a fill of another day, account or symbol does not touch it. */
  lemma {:induction false} InventoryStep(fills: seq<Fill>, key: Key, n: nat)
    requires Loaded(fills) && n < |fills|
    ensures Inventory(fills, key, 0) == 0.0
    ensures var before, after, f := Inventory(fills, key, n), Inventory(fills, key, n + 1), fills[n];
      after ==
        if !Books(f, key) || f.side == OtherSide then before
        else if f.side == Buy then before + f.quantity
        else if f.quantity <= 0.0 then before
        else if before <= f.quantity then 0.0
        else before - f.quantity
    ensures Inventory(fills, key, n + 1) >= 0.0
  {
    SoldGrows(fills, key, n, n + 1);
  }

  function Total(exits: seq<Exit>): real {
    if exits == [] then 0.0 else Total(exits[..|exits| - 1]) + exits[|exits| - 1].quantity
  }

  lemma {:induction false} TotalAppend(exits: seq<Exit>, e: Exit)
    ensures Total(exits + [e]) == Total(exits) + e.quantity
  {
    assert (exits + [e])[..|exits|] == exits;
  }

  /** How much of the stretch from lo to hi lies below the mark. */
  function Passed(lo: real, hi: real, mark: real): real { Max(0.0, Min(mark - lo, hi - lo)) }

  lemma {:induction false} OverlapIsPassed(lo: real, hi: real, from: real, to: real)
    requires lo <= hi && from <= to
    ensures Overlap(lo, hi, from, to) == Passed(lo, hi, to) - Passed(lo, hi, from) >= 0.0
  {
  }

  /** A buy's exits add up to exactly the part of its stretch that the sells have passed. */
  lemma {:induction false} ExitsTotal(fills: seq<Fill>, b: nat, n: nat)
    requires Loaded(fills) && b < n <= |fills| && fills[b].side == Buy
    ensures var key := KeyOf(fills[b]);
      Total(Exits(fills, b, n)) == Passed(Bought(fills, key, b), Bought(fills, key, b + 1), Sold(fills, key, n))
    ensures Total(Exits(fills, b, n)) <= fills[b].quantity
  {
    hide Sold, Exits, Taken, Total;
    var key := KeyOf(fills[b]);
    assert Bought(fills, key, b + 1) == Bought(fills, key, b) + fills[b].quantity;
    hide Bought;
    if n == b + 1 {
      NoEarlyExits(fills, b, b + 1);
      NoneTotal();
      SoldAtBuy(fills, b);
    } else {
      ExitsTotal(fills, b, n - 1);
      TakenIsPassed(fills, b, n - 1);
      TotalNext(fills, b, n);
    }
  }

  lemma {:induction false} NoneTotal()
    ensures Total([]) == 0.0
  {
  }

  lemma {:induction false} TotalNext(fills: seq<Fill>, b: nat, n: nat)
    requires b < |fills| && 0 < n <= |fills|
    ensures Total(Exits(fills, b, n)) == Total(Exits(fills, b, n - 1)) + Max(Taken(fills, b, n - 1), 0.0)
  {
    hide Taken, Total;
    TotalAppend(Exits(fills, b, n - 1), Exit(Taken(fills, b, n - 1), fills[n - 1]));
  }

  lemma {:induction false} TakenIsPassed(fills: seq<Fill>, b: nat, s: nat)
    requires Loaded(fills) && b < |fills| && s < |fills| && fills[b].side == Buy
    ensures var key := KeyOf(fills[b]);
      var lo, hi := Bought(fills, key, b), Bought(fills, key, b + 1);
      Taken(fills, b, s) == Passed(lo, hi, Sold(fills, key, s + 1)) - Passed(lo, hi, Sold(fills, key, s)) >= 0.0
  {
    hide Bought, Sold, Overlap, Passed;
    var key := KeyOf(fills[b]);
    BoughtGrows(fills, key, b, b + 1);
    SoldGrows(fills, key, s, s + 1);
    OverlapIsPassed(Bought(fills, key, b), Bought(fills, key, b + 1), Sold(fills, key, s), Sold(fills, key, s + 1));
  }

  /** When a buy arrives, all that was sold lies before it. */
  lemma {:induction false} SoldAtBuy(fills: seq<Fill>, b: nat)
    requires Loaded(fills) && b < |fills| && fills[b].side == Buy
    ensures Sold(fills, KeyOf(fills[b]), b + 1) <= Bought(fills, KeyOf(fills[b]), b)
  {
    SoldGrows(fills, KeyOf(fills[b]), b, b);
  }

  /** Nothing is taken from a buy that has not happened. */
  lemma {:induction false} NoEarlyExits(fills: seq<Fill>, b: nat, n: nat)
    requires Loaded(fills) && b < |fills| && n <= b + 1 && fills[b].side == Buy
    ensures Exits(fills, b, n) == []
  {
    hide Sold, Bought;
    if n > 0 {
      NoEarlyExits(fills, b, n - 1);
      var key := KeyOf(fills[b]);
      SoldGrows(fills, key, n, n);
      if n == b + 1 { SoldAtBuy(fills, b); } else { BoughtGrows(fills, key, n, b); }
    }
  }

  /** Every exit of a buy is a later sell of the same day, account and symbol. */
  lemma {:induction false} ExitIsLaterSell(fills: seq<Fill>, b: nat, n: nat, k: nat)
    requires Loaded(fills) && b < |fills| && n <= |fills| && fills[b].side == Buy && k < |Exits(fills, b, n)|
    ensures var exit, buy := Exits(fills, b, n)[k], fills[b];
      && exit.quantity > 0.0
      && exists s :: b < s < n && exit.sell == fills[s] && fills[s].side == Sell
                     && fills[s].day == buy.day && fills[s].account == buy.account && fills[s].symbol == buy.symbol
  {
    hide Taken;
    if n > 0 && k == |Exits(fills, b, n)| - 1 && Taken(fills, b, n - 1) > 0.0 {
      TakenBySell(fills, b, n - 1);
    } else {
      ExitIsLaterSell(fills, b, n - 1, k);
    }
  }

  lemma {:induction false} TakenBySell(fills: seq<Fill>, b: nat, s: nat)
    requires Loaded(fills) && b < |fills| && s < |fills| && fills[b].side == Buy && Taken(fills, b, s) > 0.0
    ensures b < s && fills[s].side == Sell
    ensures fills[s].day == fills[b].day && fills[s].account == fills[b].account && fills[s].symbol == fills[b].symbol
  {
    hide Bought, Overlap;
    var key := KeyOf(fills[b]);
    BoughtGrows(fills, key, b, b + 1);
    if s <= b {
      NotTakenEarly(fills, b, s);
    } else if !Is(fills[s], key, Sell) {
      OverlapIsPassed(Bought(fills, key, b), Bought(fills, key, b + 1), Sold(fills, key, s), Sold(fills, key, s));
    }
  }

  lemma {:induction false} NotTakenEarly(fills: seq<Fill>, b: nat, s: nat)
    requires Loaded(fills) && s <= b < |fills| && fills[b].side == Buy
    ensures Taken(fills, b, s) <= 0.0
  {
    hide Sold, Bought;
    var key := KeyOf(fills[b]);
    SoldGrows(fills, key, s + 1, s + 1);
    if s < b { BoughtGrows(fills, key, s + 1, b); } else { SoldAtBuy(fills, b); }
  }

  /** What sell s takes from the first n buys. */
  function TakenFrom(fills: seq<Fill>, s: nat, n: nat): real
    requires s < |fills| && n <= |fills|
  {
    if n == 0 then 0.0
    else TakenFrom(fills, s, n - 1) + if Is(fills[n - 1], KeyOf(fills[s]), Buy) then Taken(fills, n - 1, s) else 0.0
  }

  lemma {:induction false} TakenFromPrefix(fills: seq<Fill>, s: nat, n: nat)
    requires Loaded(fills) && s < |fills| && n <= |fills|
    ensures var key := KeyOf(fills[s]);
      var from, to := Sold(fills, key, s), Sold(fills, key, s + 1);
      TakenFrom(fills, s, n) == Max(0.0, Min(to, Bought(fills, key, n)) - from)
  {
    var key := KeyOf(fills[s]);
    SoldGrows(fills, key, s, s + 1);
    if n > 0 {
      TakenFromPrefix(fills, s, n - 1);
      BoughtGrows(fills, key, n - 1, n);
    }
  }

  /** A sell gives exactly what it moves the sold mark by, never more than its quantity. */
  lemma {:induction false} SellTotal(fills: seq<Fill>, s: nat)
    requires Loaded(fills) && s < |fills| && fills[s].side == Sell
    ensures var key := KeyOf(fills[s]);
      TakenFrom(fills, s, |fills|) == Sold(fills, key, s + 1) - Sold(fills, key, s)
      == Min(Demand(fills[s]), Inventory(fills, key, s))
  {
    hide TakenFrom;
    var key := KeyOf(fills[s]);
    TakenFromPrefix(fills, s, |fills|);
    SoldGrows(fills, key, s, s + 1);
    BoughtGrows(fills, key, s, |fills|);
  }

  /** First in, first out: a later buy is never served by an earlier sell than an earlier buy. */
  lemma {:induction false} FirstInFirstOut(fills: seq<Fill>, b: nat, b': nat, s: nat, s': nat)
    requires Loaded(fills) && b < b' < |fills| && s < |fills| && s' < |fills|
    requires fills[b].side == Buy && fills[b'].side == Buy && KeyOf(fills[b]) == KeyOf(fills[b'])
    requires Taken(fills, b, s) > 0.0 && Taken(fills, b', s') > 0.0
    ensures s <= s' && b < s
  {
    var key := KeyOf(fills[b]);
    BoughtGrows(fills, key, b + 1, b');
    if s' < s { SoldGrows(fills, key, s' + 1, s); }
    if s <= b {
      SoldGrows(fills, key, s + 1, s + 1);
      if s < b { BoughtGrows(fills, key, s + 1, b); } else { SoldGrows(fills, key, b, b); }
    }
  }

  // ---------------------------------------------------------------- the queues

  function QueueOf(queues: map<Key, seq<Open>>, key: Key): seq<Open> {
    if key in queues then queues[key] else []
  }

  /** The queue holds the buys from the mark to the end of the line, the first one cut at the mark. */
  ghost predicate Queued(fills: seq<Fill>, key: Key, q: seq<Open>, mark: real, n: nat)
    requires n <= |fills|
  {
    && (forall k :: 0 <= k < |q| ==> q[k].entry < n && Is(fills[q[k].entry], key, Buy))
    && (forall k :: 0 < k < |q| ==>
          q[k].quantity == fills[q[k].entry].quantity
          && Bought(fills, key, q[k].entry) == Bought(fills, key, q[k - 1].entry + 1))
    && (if q == [] then mark == Bought(fills, key, n)
        else
          && Bought(fills, key, q[0].entry) <= mark <= Bought(fills, key, q[0].entry + 1)
          && q[0].quantity == Bought(fills, key, q[0].entry + 1) - mark
          && (q[0].quantity > 0.0 || fills[q[0].entry].quantity == 0.0)
          && Bought(fills, key, q[|q| - 1].entry + 1) == Bought(fills, key, n))
  }

  /** `added` is what buy b must have received: `due`, or for a buy of no shares only empty exits. */
  ghost predicate Received(f: Fill, due: seq<Exit>, added: seq<Exit>) {
    if f.side != Buy then added == []
    else if f.quantity > 0.0 then added == due
    else forall k :: 0 <= k < |added| ==> added[k].quantity == 0.0
  }

  ghost predicate BetweenFills(fills: seq<Fill>, queues: map<Key, seq<Open>>, added: seq<seq<Exit>>, n: nat) {
    && n <= |fills| == |added|
    && (forall key :: Queued(fills, key, QueueOf(queues, key), Sold(fills, key, n), n))
    && (forall b :: 0 <= b < n ==> Received(fills[b], Exits(fills, b, n), added[b]))
    && (forall b :: n <= b < |fills| ==> added[b] == [])
  }

  /** What sell s has taken from buy b once it has used that many shares. */
  function Partial(fills: seq<Fill>, b: nat, s: nat, used: real): seq<Exit>
    requires b < |fills| && s < |fills|
  {
    var key := KeyOf(fills[s]);
    var from := Sold(fills, key, s);
    var part := Overlap(Bought(fills, key, b), Bought(fills, key, b + 1), from, from + used);
    if Is(fills[b], key, Buy) && part > 0.0 then [Exit(part, fills[s])] else []
  }

  /** The sold mark of a key once sell s has used that many shares. */
  function Mark(fills: seq<Fill>, key: Key, s: nat, used: real): real
    requires s < |fills|
  {
    Sold(fills, key, s) + if key == KeyOf(fills[s]) then used else 0.0
  }

  ghost predicate MidSell(fills: seq<Fill>, queues: map<Key, seq<Open>>, added: seq<seq<Exit>>, s: nat, used: real) {
    && s < |fills| == |added| && fills[s].side == Sell && used >= 0.0
    && (forall key :: Queued(fills, key, QueueOf(queues, key), Mark(fills, key, s, used), s))
    && (forall b :: 0 <= b < s ==> Received(fills[b], Exits(fills, b, s) + Partial(fills, b, s, used), added[b]))
    && (forall b :: s <= b < |fills| ==> added[b] == [])
  }

  lemma {:induction false} Start(fills: seq<Fill>, added: seq<seq<Exit>>)
    requires |added| == |fills| && forall b :: 0 <= b < |fills| ==> added[b] == []
    ensures BetweenFills(fills, map[], added, 0)
  {
  }

  lemma {:induction false} BuyKeepsOtherQueues(fills: seq<Fill>, key: Key, q: seq<Open>, mark: real, n: nat)
    requires n < |fills| && Queued(fills, key, q, mark, n) && !Is(fills[n], key, Buy)
    ensures Queued(fills, key, q, mark, n + 1)
  {
  }

  lemma {:induction false} BuyQueued(fills: seq<Fill>, key: Key, q: seq<Open>, mark: real, n: nat)
    requires n < |fills| && Queued(fills, key, q, mark, n) && Is(fills[n], key, Buy) && fills[n].quantity >= 0.0
    ensures Queued(fills, key, q + [Open(n, fills[n].quantity)], mark, n + 1)
  {
    hide Is;
  }

  /** A buy joins the end of its queue. */
  lemma {:induction false} AfterBuy(fills: seq<Fill>, queues: map<Key, seq<Open>>, added: seq<seq<Exit>>, n: nat)
    requires Loaded(fills) && BetweenFills(fills, queues, added, n) && n < |fills| && fills[n].side == Buy
    ensures var key := KeyOf(fills[n]);
      BetweenFills(fills, queues[key := QueueOf(queues, key) + [Open(n, fills[n].quantity)]], added, n + 1)
  {
    hide Queued, Received;
    var k := KeyOf(fills[n]);
    var queues' := queues[k := QueueOf(queues, k) + [Open(n, fills[n].quantity)]];
    forall key ensures Queued(fills, key, QueueOf(queues', key), Sold(fills, key, n + 1), n + 1) {
      assert Queued(fills, key, QueueOf(queues, key), Sold(fills, key, n), n);
      if key == k { BuyQueued(fills, key, QueueOf(queues, key), Sold(fills, key, n), n); }
      else { BuyKeepsOtherQueues(fills, key, QueueOf(queues, key), Sold(fills, key, n), n); }
    }
    ReceivedNothingNew(fills, added, n);
  }

  /** A fill that is no sell gives nobody an exit. */
  lemma {:induction false} ReceivedNothingNew(fills: seq<Fill>, added: seq<seq<Exit>>, n: nat)
    requires Loaded(fills) && n < |fills| == |added| && fills[n].side != Sell && added[n] == []
    requires forall b :: 0 <= b < n ==> Received(fills[b], Exits(fills, b, n), added[b])
    ensures forall b :: 0 <= b < n + 1 ==> Received(fills[b], Exits(fills, b, n + 1), added[b])
  {
    hide Exits;
    forall b | 0 <= b < n + 1 ensures Received(fills[b], Exits(fills, b, n + 1), added[b]) {
      if fills[b].side == Buy {
        if b == n { NoEarlyExits(fills, n, n + 1); } else { NoExitAt(fills, b, n); }
      }
    }
  }

  lemma {:induction false} NoExitAt(fills: seq<Fill>, b: nat, n: nat)
    requires Loaded(fills) && b < n < |fills| && fills[b].side == Buy && fills[n].side != Sell
    ensures Exits(fills, b, n + 1) == Exits(fills, b, n)
  {
    hide Bought;
    BoughtGrows(fills, KeyOf(fills[b]), b, b + 1);
  }

  /** A fill that is neither a buy nor a sell changes nothing. */
  lemma {:induction false} AfterOther(fills: seq<Fill>, queues: map<Key, seq<Open>>, added: seq<seq<Exit>>, n: nat)
    requires Loaded(fills) && BetweenFills(fills, queues, added, n) && n < |fills|
    requires fills[n].side != Buy && fills[n].side != Sell
    ensures BetweenFills(fills, queues, added, n + 1)
  {
    hide Queued, Received;
    forall key ensures Queued(fills, key, QueueOf(queues, key), Sold(fills, key, n + 1), n + 1) {
      assert Queued(fills, key, QueueOf(queues, key), Sold(fills, key, n), n);
      BuyKeepsOtherQueues(fills, key, QueueOf(queues, key), Sold(fills, key, n), n);
    }
    ReceivedNothingNew(fills, added, n);
  }

  // ---------------------------------------------------------------- one sell

  lemma {:induction false} SellStart(fills: seq<Fill>, queues: map<Key, seq<Open>>, added: seq<seq<Exit>>, s: nat)
    requires Loaded(fills) && BetweenFills(fills, queues, added, s) && s < |fills| && fills[s].side == Sell
    ensures MidSell(fills, queues, added, s, 0.0)
  {
    hide Queued, Received;
    forall key ensures Queued(fills, key, QueueOf(queues, key), Mark(fills, key, s, 0.0), s) {
      assert Queued(fills, key, QueueOf(queues, key), Sold(fills, key, s), s);
    }
    forall b | 0 <= b < s ensures Received(fills[b], Exits(fills, b, s) + Partial(fills, b, s, 0.0), added[b]) {
      NothingPartial(fills, b, s);
      assert Exits(fills, b, s) + [] == Exits(fills, b, s);
    }
  }

  lemma {:induction false} NothingPartial(fills: seq<Fill>, b: nat, s: nat)
    requires Loaded(fills) && b < |fills| && s < |fills|
    ensures Partial(fills, b, s, 0.0) == []
  {
    hide Bought, Sold;
    BoughtGrows(fills, KeyOf(fills[s]), b, b + 1);
  }

  /** The queue after using `used` shares of its first entry. */
  function Reduced(q: seq<Open>, used: real): seq<Open>
    requires q != []
  {
    if q[0].quantity - used == 0.0 then q[1..] else q[0 := Open(q[0].entry, q[0].quantity - used)]
  }

  lemma {:induction false} CutQueued(fills: seq<Fill>, key: Key, q: seq<Open>, mark: real, n: nat, used: real)
    requires n <= |fills| && Queued(fills, key, q, mark, n) && q != [] && 0.0 <= used < q[0].quantity
    ensures Queued(fills, key, q[0 := Open(q[0].entry, q[0].quantity - used)], mark + used, n)
  {
    hide Bought, Is;
  }

  lemma {:induction false} PoppedQueued(fills: seq<Fill>, key: Key, q: seq<Open>, mark: real, n: nat)
    requires Loaded(fills) && n <= |fills| && Queued(fills, key, q, mark, n) && q != []
    ensures Queued(fills, key, q[1..], mark + q[0].quantity, n)
    ensures |q| > 1 ==> mark + q[0].quantity == Bought(fills, key, q[1].entry)
  {
    if |q| > 1 {
      BoughtStep(fills, key, q[1].entry);
      TailQueued(fills, key, q, mark, n);
    }
  }

  lemma {:induction false} TailQueued(fills: seq<Fill>, key: Key, q: seq<Open>, mark: real, n: nat)
    requires n <= |fills| && Queued(fills, key, q, mark, n) && |q| > 1
    requires Bought(fills, key, q[1].entry + 1) == Bought(fills, key, q[1].entry) + fills[q[1].entry].quantity
    requires fills[q[1].entry].quantity >= 0.0
    ensures Queued(fills, key, q[1..], mark + q[0].quantity, n)
  {
    hide Bought, Is;
    assert forall k :: 0 <= k < |q[1..]| ==> q[1..][k] == q[k + 1];
  }

  lemma {:induction false} ReducedQueued(fills: seq<Fill>, key: Key, q: seq<Open>, mark: real, n: nat, used: real)
    requires Loaded(fills) && n <= |fills| && Queued(fills, key, q, mark, n) && q != [] && 0.0 <= used <= q[0].quantity
    ensures Queued(fills, key, Reduced(q, used), mark + used, n)
    ensures q[0].quantity == used && |q| > 1 ==> mark + used == Bought(fills, key, q[1].entry)
  {
    hide Queued, Bought;
    if q[0].quantity == used {
      PoppedQueued(fills, key, q, mark, n);
    } else {
      CutQueued(fills, key, q, mark, n, used);
    }
  }

  lemma {:induction false} BoughtStep(fills: seq<Fill>, key: Key, b: nat)
    requires Loaded(fills) && b < |fills| && Is(fills[b], key, Buy)
    ensures Bought(fills, key, b + 1) == Bought(fills, key, b) + fills[b].quantity >= Bought(fills, key, b)
  {
  }

  /** Using `u` shares of the first entry extends that entry's part of the sell and no other's. */
  lemma {:induction false} PartialStep(fills: seq<Fill>, b: nat, e: nat, s: nat, used: real, u: real)
    requires Loaded(fills) && b < s < |fills| && e < s && u >= 0.0 && used >= 0.0
    requires var key := KeyOf(fills[s]);
      var mark := Sold(fills, key, s) + used;
      && Is(fills[e], key, Buy)
      && Bought(fills, key, e) <= mark && mark + u <= Bought(fills, key, e + 1)
      && (used == 0.0 || mark == Bought(fills, key, e))
    ensures b != e && fills[b].quantity > 0.0 ==> Partial(fills, b, s, used + u) == Partial(fills, b, s, used)
    ensures b == e ==> Partial(fills, b, s, used) == []
    ensures b == e && fills[b].quantity > 0.0 && u > 0.0 ==> Partial(fills, b, s, used + u) == [Exit(u, fills[s])]
    ensures b == e && u == 0.0 ==> Partial(fills, b, s, used + u) == []
  {
    hide Bought, Sold;
    var key := KeyOf(fills[s]);
    BoughtStep(fills, key, e);
    if Is(fills[b], key, Buy) {
      BoughtStep(fills, key, b);
      if b < e { BoughtGrows(fills, key, b + 1, e); }
      if e < b { BoughtGrows(fills, key, e + 1, b); }
    }
  }

  /** One turn of the matching loop. */
  lemma {:induction false} SellTurn(
      fills: seq<Fill>, queues: map<Key, seq<Open>>, added: seq<seq<Exit>>, s: nat, used: real, u: real)
    requires Loaded(fills) && MidSell(fills, queues, added, s, used)
    requires var q := QueueOf(queues, KeyOf(fills[s])); q != [] && FreshHead(fills, q, s, used)
    requires var q := QueueOf(queues, KeyOf(fills[s])); 0.0 <= u <= q[0].quantity && (u == 0.0 ==> q[0].quantity == 0.0)
    ensures var key := KeyOf(fills[s]);
      var q := QueueOf(queues, key);
      var e := q[0].entry;
      && e < s
      && MidSell(fills, queues[key := Reduced(q, u)], added[e := added[e] + [Exit(u, fills[s])]], s, used + u)
      && (u == q[0].quantity && |q| > 1 ==> FreshHead(fills, Reduced(q, u), s, used + u))
  {
    hide Queued, Received, Partial, Exits;
    var key := KeyOf(fills[s]);
    var q := QueueOf(queues, key);
    var queues' := queues[key := Reduced(q, u)];
    assert Queued(fills, key, q, Mark(fills, key, s, used), s);
    HeadFacts(fills, key, q, Mark(fills, key, s, used), s);
    ReducedQueued(fills, key, q, Mark(fills, key, s, used), s, u);
    if u == q[0].quantity && |q| > 1 { assert Reduced(q, u)[0] == q[1]; }
    var e := q[0].entry;
    var added' := added[e := added[e] + [Exit(u, fills[s])]];
    forall k ensures Queued(fills, k, QueueOf(queues', k), Mark(fills, k, s, used + u), s) {
      assert Queued(fills, k, QueueOf(queues, k), Mark(fills, k, s, used), s);
    }
    forall b | 0 <= b < s
      ensures Received(fills[b], Exits(fills, b, s) + Partial(fills, b, s, used + u), added'[b])
    {
      assert Received(fills[b], Exits(fills, b, s) + Partial(fills, b, s, used), added[b]);
      PartialStep(fills, b, e, s, used, u);
      ReceivedTurn(fills[b], Exits(fills, b, s), Partial(fills, b, s, used), Partial(fills, b, s, used + u),
                   added[b], added'[b], Exit(u, fills[s]), b == e);
    }
  }

  /** The head of the queue has given nothing to sell s yet. */
  ghost predicate FreshHead(fills: seq<Fill>, q: seq<Open>, s: nat, used: real)
    requires s < |fills| && q != []
  {
    var key := KeyOf(fills[s]);
    q[0].entry < s && (used == 0.0 || Sold(fills, key, s) + used == Bought(fills, key, q[0].entry))
  }

  lemma {:induction false} HeadFacts(fills: seq<Fill>, key: Key, q: seq<Open>, mark: real, n: nat)
    requires n <= |fills| && Queued(fills, key, q, mark, n) && q != []
    ensures q[0].entry < n && Is(fills[q[0].entry], key, Buy)
    ensures Bought(fills, key, q[0].entry) <= mark && mark + q[0].quantity == Bought(fills, key, q[0].entry + 1)
    ensures Bought(fills, key, q[0].entry + 1) == Bought(fills, key, q[0].entry) + fills[q[0].entry].quantity
    ensures q[0].quantity > 0.0 || fills[q[0].entry].quantity == 0.0
    ensures |q| > 1 ==> q[1].entry < n
  {
  }

  lemma {:induction false} ReceivedTurn(
      f: Fill, due: seq<Exit>, part: seq<Exit>, part': seq<Exit>, added: seq<Exit>, added': seq<Exit>, x: Exit,
      head: bool)
    requires Received(f, due + part, added)
    requires head ==> f.side == Buy && added' == added + [x] && part == []
    requires head ==> (f.quantity > 0.0 ==> part' == [x]) && (f.quantity <= 0.0 ==> x.quantity == 0.0)
    requires !head ==> added' == added && (f.side == Buy && f.quantity > 0.0 ==> part' == part)
    ensures Received(f, due + part', added')
  {
    if head { assert due + [] + [x] == due + [x]; }
  }

  /** When the demand or the queue is exhausted, the mark stands where it belongs. */
  lemma {:induction false} SellEnd(
      fills: seq<Fill>, queues: map<Key, seq<Open>>, added: seq<seq<Exit>>, s: nat, used: real)
    requires Loaded(fills) && MidSell(fills, queues, added, s, used)
    requires used <= Demand(fills[s])
    requires used == Demand(fills[s]) || QueueOf(queues, KeyOf(fills[s])) == []
    ensures BetweenFills(fills, queues, added, s + 1)
  {
    hide Queued, Received, Exits, Partial;
    EndMark(fills, queues, added, s, used);
    assert Mark(fills, KeyOf(fills[s]), s, used) == Sold(fills, KeyOf(fills[s]), s + 1);
    forall k ensures Queued(fills, k, QueueOf(queues, k), Sold(fills, k, s + 1), s + 1) {
      assert Queued(fills, k, QueueOf(queues, k), Mark(fills, k, s, used), s);
      BuyKeepsOtherQueues(fills, k, QueueOf(queues, k), Mark(fills, k, s, used), s);
    }
    forall b | 0 <= b < s + 1 ensures Received(fills[b], Exits(fills, b, s + 1), added[b]) {
      if b < s {
        assert Received(fills[b], Exits(fills, b, s) + Partial(fills, b, s, used), added[b]);
        PartialIsTaken(fills, b, s, used);
        OnlyBuysMatter(fills[b], Exits(fills, b, s) + Partial(fills, b, s, used), Exits(fills, b, s + 1), added[b]);
      } else {
        NotABuy(fills[s]);
      }
    }
  }

  lemma {:induction false} OnlyBuysMatter(f: Fill, due: seq<Exit>, due': seq<Exit>, added: seq<Exit>)
    requires Received(f, due, added) && (f.side == Buy ==> due' == due)
    ensures Received(f, due', added)
  {
  }

  lemma {:induction false} EndMark(
      fills: seq<Fill>, queues: map<Key, seq<Open>>, added: seq<seq<Exit>>, s: nat, used: real)
    requires Loaded(fills) && MidSell(fills, queues, added, s, used)
    requires used <= Demand(fills[s])
    requires used == Demand(fills[s]) || QueueOf(queues, KeyOf(fills[s])) == []
    ensures forall k :: Mark(fills, k, s, used) == Sold(fills, k, s + 1)
  {
    hide Queued, Bought;
    var key := KeyOf(fills[s]);
    assert Queued(fills, key, QueueOf(queues, key), Mark(fills, key, s, used), s);
    MarkInLine(fills, key, QueueOf(queues, key), Mark(fills, key, s, used), s);
  }

  lemma {:induction false} NotABuy(f: Fill)
    requires f.side == Sell
    ensures forall due :: Received(f, due, [])
  {
  }

  lemma {:induction false} MarkInLine(fills: seq<Fill>, key: Key, q: seq<Open>, mark: real, n: nat)
    requires Loaded(fills) && n <= |fills| && Queued(fills, key, q, mark, n)
    ensures mark <= Bought(fills, key, n)
    ensures q == [] ==> mark == Bought(fills, key, n)
  {
    if q != [] { BoughtGrows(fills, key, q[0].entry + 1, n); }
  }

  lemma {:induction false} PartialIsTaken(fills: seq<Fill>, b: nat, s: nat, used: real)
    requires Loaded(fills) && b < s < |fills| && fills[s].side == Sell
    requires var key := KeyOf(fills[s]);
      Sold(fills, key, s) + used == Sold(fills, key, s + 1)
    ensures fills[b].side == Buy ==> Exits(fills, b, s + 1) == Exits(fills, b, s) + Partial(fills, b, s, used)
  {
    hide Bought, Overlap;
    if fills[b].side == Buy {
      var key := KeyOf(fills[b]);
      BoughtGrows(fills, key, b, b + 1);
      OverlapIsPassed(Bought(fills, key, b), Bought(fills, key, b + 1), Sold(fills, key, s), Sold(fills, key, s));
      assert Exits(fills, b, s) + [] == Exits(fills, b, s);
    }
  }

  // ---------------------------------------------------------------- the matching

  /** Each fill's exits are those it came with and those added since. */
  ghost predicate Holds(fills: seq<Fill>, held: seq<seq<Exit>>, added: seq<seq<Exit>>)
    reads fills
  {
    |held| == |added| == |fills| && forall b :: 0 <= b < |fills| ==> fills[b].exits == held[b] + added[b]
  }

  method Give(fills: seq<Fill>, entry: nat, x: Exit, ghost held: seq<seq<Exit>>, ghost added: seq<seq<Exit>>)
    requires Loaded(fills) && entry < |fills| && Holds(fills, held, added)
    modifies fills[entry]
    ensures |added| == |fills| && Holds(fills, held, added[entry := added[entry] + [x]])
  {
    fills[entry].exits := fills[entry].exits + [x];
  }

  /** Serves the oldest open buys of the sell's key until the sell or the queue is exhausted. */
  method MatchSell(fills: seq<Fill>, s: nat, queues: map<Key, seq<Open>>, ghost added: seq<seq<Exit>>,
                   ghost held: seq<seq<Exit>>)
    returns (queues': map<Key, seq<Open>>, ghost added': seq<seq<Exit>>)
    requires Loaded(fills) && s < |fills| && fills[s].side == Sell
    requires BetweenFills(fills, queues, added, s) && Holds(fills, held, added)
    modifies fills
    ensures BetweenFills(fills, queues', added', s + 1) && Holds(fills, held, added')
  {
    hide BetweenFills, MidSell, Queued, Received, Exits, Holds, Loaded;
    queues', added' := queues, added;
    var key := KeyOf(fills[s]);
    var remaining := fills[s].quantity;
    ghost var used := 0.0;
    SellStart(fills, queues, added, s);
    HeadIsFresh(fills, queues, added, s);
    while remaining > 0.0 && QueueOf(queues', key) != []
      invariant MidSell(fills, queues', added', s, used) && Holds(fills, held, added')
      invariant used == Demand(fills[s]) - Max(remaining, 0.0)
      invariant remaining > 0.0 && QueueOf(queues', key) != [] ==> FreshHead(fills, QueueOf(queues', key), s, used)
      decreases |QueueOf(queues', key)|, if remaining > 0.0 then 1 else 0
    {
      var q := QueueOf(queues', key);
      var entry, openQuantity := q[0].entry, q[0].quantity;
      HeadOpen(fills, queues', added', s, used);
      var take := Min(remaining, openQuantity);
      SellTurn(fills, queues', added', s, used, take);
      Give(fills, entry, Exit(take, fills[s]), held, added');
      added' := added'[entry := added'[entry] + [Exit(take, fills[s])]];
      used := used + take;
      remaining := remaining - take;
      openQuantity := openQuantity - take;
      if openQuantity == 0.0 {
        queues' := queues'[key := q[1..]];
      } else {
        queues' := queues'[key := q[0 := Open(entry, openQuantity)]];
      }
    }
    SellEnd(fills, queues', added', s, used);
  }

  lemma {:induction false} HeadIsFresh(fills: seq<Fill>, queues: map<Key, seq<Open>>, added: seq<seq<Exit>>, s: nat)
    requires MidSell(fills, queues, added, s, 0.0)
    ensures var q := QueueOf(queues, KeyOf(fills[s])); q != [] ==> FreshHead(fills, q, s, 0.0)
  {
    assert Queued(fills, KeyOf(fills[s]), QueueOf(queues, KeyOf(fills[s])), Mark(fills, KeyOf(fills[s]), s, 0.0), s);
  }

  lemma {:induction false} HeadOpen(
      fills: seq<Fill>, queues: map<Key, seq<Open>>, added: seq<seq<Exit>>, s: nat, used: real)
    requires MidSell(fills, queues, added, s, used) && QueueOf(queues, KeyOf(fills[s])) != []
    ensures var q := QueueOf(queues, KeyOf(fills[s])); q[0].quantity >= 0.0 && q[0].entry < s < |fills| == |added|
  {
    assert Queued(fills, KeyOf(fills[s]), QueueOf(queues, KeyOf(fills[s])), Mark(fills, KeyOf(fills[s]), s, used), s);
  }

  /** Walks the fills once. Every buy receives exactly the exits that the line of shares gives it,
      after any it came with; a buy of no shares may receive empty ones, and no other fill any. */
  method PairExits(fills: seq<Fill>)
    requires Loaded(fills)
    modifies fills
    ensures forall b :: 0 <= b < |fills| ==>
      |fills[b].exits| >= |old(fills[b].exits)| && fills[b].exits[..|old(fills[b].exits)|] == old(fills[b].exits)
      && Received(fills[b], Exits(fills, b, |fills|), fills[b].exits[|old(fills[b].exits)|..])
  {
    hide BetweenFills, Received, Exits;
    var queues: map<Key, seq<Open>> := map[];
    ghost var held: seq<seq<Exit>> := seq(|fills|, b requires 0 <= b < |fills| reads fills => fills[b].exits);
    ghost var added: seq<seq<Exit>> := seq(|fills|, b => []);
    Start(fills, added);
    for i := 0 to |fills|
      invariant BetweenFills(fills, queues, added, i) && Holds(fills, held, added)
    {
      var fill := fills[i];
      var key := KeyOf(fill);
      if fill.side == Buy {
        AfterBuy(fills, queues, added, i);
        queues := queues[key := QueueOf(queues, key) + [Open(i, fill.quantity)]];
      } else if fill.side != Sell {
        AfterOther(fills, queues, added, i);
      } else {
        queues, added := MatchSell(fills, i, queues, added, held);
      }
    }
    AllReceived(fills, queues, added);
    forall b | 0 <= b < |fills|
      ensures fills[b].exits[..|held[b]|] == held[b] && fills[b].exits[|held[b]|..] == added[b]
    {
      assert fills[b].exits == held[b] + added[b];
    }
  }

  lemma {:induction false} AllReceived(fills: seq<Fill>, queues: map<Key, seq<Open>>, added: seq<seq<Exit>>)
    requires BetweenFills(fills, queues, added, |fills|)
    ensures |added| == |fills| && forall b :: 0 <= b < |fills| ==>
      Received(fills[b], Exits(fills, b, |fills|), added[b])
  {
  }
}
