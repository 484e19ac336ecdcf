/** The mirror pairing of scripts/broker_ab_report.py: primaries oldest first, each takes the nearest unused
    mirror of its symbol within the window. Legs are named by their position in the lists. */
module LegPairing {
  import opened Wrappers

  datatype Leg = Leg(symbol: string, submittedAt: Option<int>)

  datatype Pair = Pair(primary: nat, mirror: Option<nat>)

  // ---------------------------------------------------------------- oldest first

  /** The sort key, legs without a submission time last; equal keys keep their order. */
  predicate Earlier(legs: seq<Leg>, i: nat, j: nat)
    requires i < |legs| && j < |legs|
  {
    match (legs[i].submittedAt, legs[j].submittedAt)
    case (Some(s), Some(t)) => s < t || (s == t && i < j)
    case (Some(_), None) => true
    case (None, Some(_)) => false
    case (None, None) => i < j
  }

  ghost predicate Covers(order: seq<nat>, n: nat) {
    (forall a :: 0 <= a < |order| ==> order[a] < n) && forall i: nat :: i < n ==> i in order
  }

  /** Every position below n once, oldest first. */
  ghost predicate OldestFirst(legs: seq<Leg>, order: seq<nat>, n: nat)
    requires n <= |legs|
  {
    Covers(order, n) && forall a, b :: 0 <= a < b < |order| ==> Earlier(legs, order[a], order[b])
  }

  method SortOldestFirst(legs: seq<Leg>) returns (order: seq<nat>)
    ensures OldestFirst(legs, order, |legs|)
  {
    order := [];
    for n := 0 to |legs|
      invariant OldestFirst(legs, order, n)
    {
      var p := |order|;
      while p > 0 && Earlier(legs, n, order[p - 1])
        invariant 0 <= p <= |order| && OldestFirst(legs, order, n)
        invariant forall b :: p <= b < |order| ==> Earlier(legs, n, order[b])
      {
        p := p - 1;
      }
      InsertKeepsOrder(legs, order, n, p);
      order := order[..p] + [n] + order[p..];
    }
  }

  lemma {:induction false} InsertCovers(order: seq<nat>, n: nat, p: nat)
    requires Covers(order, n) && p <= |order|
    ensures Covers(order[..p] + [n] + order[p..], n + 1)
  {
    var r := order[..p] + [n] + order[p..];
    forall i: nat | i < n ensures i in r {
      assert i in order;
      var k :| 0 <= k < |order| && order[k] == i;
      assert r[if k < p then k else k + 1] == i;
    }
    assert r[p] == n;
  }

  lemma {:induction false} InsertKeepsOrder(legs: seq<Leg>, order: seq<nat>, n: nat, p: nat)
    requires n < |legs| && OldestFirst(legs, order, n) && p <= |order|
    requires forall b :: p <= b < |order| ==> order[b] < |legs| && Earlier(legs, n, order[b])
    requires p > 0 ==> order[p - 1] < |legs| && !Earlier(legs, n, order[p - 1])
    ensures OldestFirst(legs, order[..p] + [n] + order[p..], n + 1)
  {
    var r := order[..p] + [n] + order[p..];
    assert Covers(r, n + 1) by { InsertCovers(order, n, p); }
    forall a, b | 0 <= a < b < |r| ensures Earlier(legs, r[a], r[b]) {
      hide Earlier;
      if b == p {
        NotLater(legs, order[a], order[p - 1], n);
      } else if a != p {
        var x, y := if a < p then a else a - 1, if b < p then b else b - 1;
        assert r[a] == order[x] && r[b] == order[y] && x < y;
      }
    }
  }

  /** Below n, what is not after n is before it. */
  lemma {:induction false} NotLater(legs: seq<Leg>, i: nat, j: nat, n: nat)
    requires i < n < |legs| && j < n && !Earlier(legs, n, j) && (i == j || Earlier(legs, i, j))
    ensures Earlier(legs, i, n)
  {
  }

  // ---------------------------------------------------------------- the pairing

  function Delta(p: Leg, m: Leg): nat
    requires p.submittedAt.Some? && m.submittedAt.Some?
  {
    var d := m.submittedAt.value - p.submittedAt.value;
    if d < 0 then -d else d
  }

  predicate Near(p: Leg, m: Leg, window: int) {
    p.submittedAt.Some? && m.submittedAt.Some? && p.symbol == m.symbol && Delta(p, m) <= window
  }

  /** Mirror i is preferred to mirror j: nearer in time, or as near and listed before. */
  predicate Preferred(p: Leg, mirrors: seq<Leg>, i: nat, j: nat)
    requires i < |mirrors| && j < |mirrors| && p.submittedAt.Some? && mirrors[i].submittedAt.Some? &&
      mirrors[j].submittedAt.Some?
  {
    Delta(p, mirrors[i]) < Delta(p, mirrors[j]) || (Delta(p, mirrors[i]) == Delta(p, mirrors[j]) && i <= j)
  }

  /** The best mirror among the first n that `used` leaves. */
  ghost predicate Best(p: Leg, mirrors: seq<Leg>, used: set<nat>, window: int, n: nat, best: Option<nat>)
    requires n <= |mirrors|
  {
    && (best.Some? ==> best.value < n && best.value !in used && Near(p, mirrors[best.value], window))
    && forall j :: 0 <= j < n && j !in used && Near(p, mirrors[j], window) ==>
       best.Some? && Preferred(p, mirrors, best.value, j)
  }

  method BestMirror(p: Leg, mirrors: seq<Leg>, used: set<nat>, window: int) returns (best: Option<nat>)
    ensures Best(p, mirrors, used, window, |mirrors|, best)
  {
    best := None;
    if p.submittedAt.None? { return; }
    var bestDelta := 0;
    for j := 0 to |mirrors|
      invariant Best(p, mirrors, used, window, j, best)
      invariant best.Some? ==> bestDelta == Delta(p, mirrors[best.value])
    {
      if mirrors[j].submittedAt.None? || j in used || mirrors[j].symbol != p.symbol { continue; }
      var delta := Delta(p, mirrors[j]);
      if delta > window { continue; }
      if best.None? || delta < bestDelta { best, bestDelta := Some(j), delta; }
    }
  }

  ghost function Used(pairs: seq<Pair>): set<nat> {
    set k | 0 <= k < |pairs| && pairs[k].mirror.Some? :: pairs[k].mirror.value
  }

  /** Each primary, in turn, has the best mirror that those before it leave. */
  ghost predicate Greedy(primaries: seq<Leg>, mirrors: seq<Leg>, window: int, pairs: seq<Pair>) {
    forall k :: 0 <= k < |pairs| ==>
      pairs[k].primary < |primaries|
      && Best(primaries[pairs[k].primary], mirrors, Used(pairs[..k]), window, |mirrors|, pairs[k].mirror)
  }

  ghost function Order(pairs: seq<Pair>): seq<nat> { seq(|pairs|, k requires 0 <= k < |pairs| => pairs[k].primary) }

  method PairLegs(primaries: seq<Leg>, mirrors: seq<Leg>, window: int) returns (pairs: seq<Pair>)
    ensures OldestFirst(primaries, Order(pairs), |primaries|)
    ensures Greedy(primaries, mirrors, window, pairs)
  {
    hide Best;
    var ordered := SortOldestFirst(primaries);
    var used: set<nat> := {};
    pairs := [];
    for k := 0 to |ordered|
      invariant |pairs| == k && Order(pairs) == ordered[..k]
      invariant used == Used(pairs)
      invariant Greedy(primaries, mirrors, window, pairs)
    {
      assert ordered[k] in ordered;
      var best := BestMirror(primaries[ordered[k]], mirrors, used, window);
      GreedyStep(primaries, mirrors, window, pairs, Pair(ordered[k], best));
      pairs := pairs + [Pair(ordered[k], best)];
      if best.Some? { used := used + {best.value}; }
    }
    assert ordered[..|ordered|] == ordered;
  }

  lemma {:induction false} GreedyStep(primaries: seq<Leg>, mirrors: seq<Leg>, window: int, pairs: seq<Pair>, next: Pair)
    requires Greedy(primaries, mirrors, window, pairs) && next.primary < |primaries|
    requires Best(primaries[next.primary], mirrors, Used(pairs), window, |mirrors|, next.mirror)
    ensures Greedy(primaries, mirrors, window, pairs + [next])
    ensures Used(pairs + [next]) == Used(pairs) + if next.mirror.Some? then {next.mirror.value} else {}
  {
    hide Best;
    var r := pairs + [next];
    forall k | 0 <= k < |r| ensures r[..k] == if k < |pairs| then pairs[..k] else pairs {}
    assert forall k :: 0 <= k < |pairs| ==> r[k] == pairs[k];
    assert r[|pairs|] == next;
  }

  // ---------------------------------------------------------------- what a greedy pairing is

  lemma {:induction false} UsedHolds(pairs: seq<Pair>, j: nat) returns (k: nat)
    requires j in Used(pairs)
    ensures k < |pairs| && pairs[k].mirror == Some(j)
  {
    k :| 0 <= k < |pairs| && pairs[k].mirror == Some(j);
  }

  /** No mirror twice, and only within symbol and window. */
  lemma {:induction false} OneToOne(
      primaries: seq<Leg>, mirrors: seq<Leg>, window: int, pairs: seq<Pair>, a: nat, b: nat)
    requires Greedy(primaries, mirrors, window, pairs) && a < b < |pairs|
    requires pairs[a].mirror.Some? && pairs[b].mirror.Some?
    ensures pairs[a].mirror != pairs[b].mirror
    ensures Near(primaries[pairs[a].primary], mirrors[pairs[a].mirror.value], window)
  {
  }

  /** An unpaired primary has no unused mirror within reach. */
  lemma {:induction false} Maximal(
      primaries: seq<Leg>, mirrors: seq<Leg>, window: int, pairs: seq<Pair>, k: nat, j: nat)
    requires Greedy(primaries, mirrors, window, pairs) && k < |pairs| && j < |mirrors|
    requires pairs[k].mirror.None? && Near(primaries[pairs[k].primary], mirrors[j], window)
    ensures exists a :: 0 <= a < k && pairs[a].mirror == Some(j)
  {
    assert j in Used(pairs[..k]);
    var a := UsedHolds(pairs[..k], j);
    assert pairs[..k][a] == pairs[a];
  }

  /** Whatever a primary would strictly prefer is held by an older one. */
  lemma {:induction false} Stable(primaries: seq<Leg>, mirrors: seq<Leg>, window: int, pairs: seq<Pair>, k: nat, j: nat)
    requires Greedy(primaries, mirrors, window, pairs) && OldestFirst(primaries, Order(pairs), |primaries|)
    requires k < |pairs| && j < |mirrors| && pairs[k].mirror.Some?
    requires Near(primaries[pairs[k].primary], mirrors[j], window)
    requires Delta(primaries[pairs[k].primary], mirrors[j])
      < Delta(primaries[pairs[k].primary], mirrors[pairs[k].mirror.value])
    ensures exists a ::
      0 <= a < k && pairs[a].mirror == Some(j) && Earlier(primaries, pairs[a].primary, pairs[k].primary)
  {
    hide Earlier;
    assert j in Used(pairs[..k]);
    var a := UsedHolds(pairs[..k], j);
    assert pairs[..k][a] == pairs[a];
    assert Order(pairs)[a] == pairs[a].primary && Order(pairs)[k] == pairs[k].primary;
  }

  /** Oldest-first priority leaves one answer. */
  lemma {:induction false} PairingIsDetermined(
      primaries: seq<Leg>, mirrors: seq<Leg>, window: int, xs: seq<Pair>, ys: seq<Pair>)
    requires Greedy(primaries, mirrors, window, xs) && Greedy(primaries, mirrors, window, ys)
    requires Order(xs) == Order(ys)
    ensures xs == ys
  {
    assert |xs| == |Order(xs)| == |ys|;
    if xs != [] {
      var n := |xs| - 1;
      GreedyPrefix(primaries, mirrors, window, xs);
      GreedyPrefix(primaries, mirrors, window, ys);
      assert Order(xs[..n]) == Order(xs)[..n] == Order(ys)[..n] == Order(ys[..n]);
      PairingIsDetermined(primaries, mirrors, window, xs[..n], ys[..n]);
      assert Order(xs)[n] == xs[n].primary && Order(ys)[n] == ys[n].primary;
      assert xs == xs[..n] + [xs[n]] && ys == ys[..n] + [ys[n]];
    }
  }

  lemma {:induction false} GreedyPrefix(primaries: seq<Leg>, mirrors: seq<Leg>, window: int, pairs: seq<Pair>)
    requires Greedy(primaries, mirrors, window, pairs) && pairs != []
    ensures Greedy(primaries, mirrors, window, pairs[..|pairs| - 1])
  {
    hide Best;
    forall k | 0 <= k < |pairs| - 1 ensures pairs[..|pairs| - 1][..k] == pairs[..k] {}
  }

  lemma {:induction false} NextIsNoLater(legs: seq<Leg>, x: seq<nat>, y: seq<nat>, k: nat)
    requires OldestFirst(legs, x, |legs|) && OldestFirst(legs, y, |legs|)
    requires k < |x| && k <= |y| && x[..k] == y[..k]
    ensures k < |y| && (x[k] == y[k] || Earlier(legs, y[k], x[k]))
  {
    assert x[k] in y;
    var m :| 0 <= m < |y| && y[m] == x[k];
    if m < k { assert false; }
  }

  lemma {:induction false} SameOrder(legs: seq<Leg>, x: seq<nat>, y: seq<nat>, k: nat)
    requires OldestFirst(legs, x, |legs|) && OldestFirst(legs, y, |legs|) && k <= |x|
    ensures k <= |y| && x[..k] == y[..k]
  {
    if k > 0 {
      SameOrder(legs, x, y, k - 1);
      NextIsNoLater(legs, x, y, k - 1);
      NextIsNoLater(legs, y, x, k - 1);
      assert x[..k] == x[..k - 1] + [x[k - 1]] && y[..k] == y[..k - 1] + [y[k - 1]];
    }
  }

  /** Two runs over the same legs, however done, pair alike. */
  lemma {:induction false} OneAnswer(primaries: seq<Leg>, mirrors: seq<Leg>, window: int, xs: seq<Pair>, ys: seq<Pair>)
    requires Greedy(primaries, mirrors, window, xs) && OldestFirst(primaries, Order(xs), |primaries|)
    requires Greedy(primaries, mirrors, window, ys) && OldestFirst(primaries, Order(ys), |primaries|)
    ensures xs == ys
  {
    hide Greedy, OldestFirst;
    SameOrder(primaries, Order(xs), Order(ys), |Order(xs)|);
    SameOrder(primaries, Order(ys), Order(xs), |Order(ys)|);
    assert Order(xs) == Order(xs)[..|Order(xs)|] == Order(ys)[..|Order(ys)|] == Order(ys);
    PairingIsDetermined(primaries, mirrors, window, xs, ys);
  }

  // ---------------------------------------------------------------- in symbols and times

  /** Of one symbol, and submitted no more than the window apart. */
  predicate InReach(p: Leg, m: Leg, window: int) {
    && p.symbol == m.symbol && p.submittedAt.Some? && m.submittedAt.Some?
    && p.submittedAt.value - window <= m.submittedAt.value <= p.submittedAt.value + window
  }

  /** t is strictly nearer to s than u is. */
  predicate Nearer(s: int, t: int, u: int) { if u >= s then 2 * s - u < t < u else u < t < 2 * s - u }

  /** The chosen mirror is unused and in reach; no other such mirror is nearer, or as near and listed before it. */
  lemma {:induction false} BestInFields(p: Leg, mirrors: seq<Leg>, used: set<nat>, window: int, best: Option<nat>)
    requires Best(p, mirrors, used, window, |mirrors|, best)
    ensures best.None? ==> forall j :: 0 <= j < |mirrors| && j !in used ==> !InReach(p, mirrors[j], window)
    ensures best.Some? ==>
      && best.value < |mirrors| && best.value !in used && InReach(p, mirrors[best.value], window)
      && forall j :: 0 <= j < |mirrors| && j !in used && InReach(p, mirrors[j], window) ==>
        var chosen, other := mirrors[best.value].submittedAt.value, mirrors[j].submittedAt.value;
        && !Nearer(p.submittedAt.value, other, chosen)
        && (j < best.value ==> Nearer(p.submittedAt.value, chosen, other))
  {
  }

  /** An earlier leg was submitted before, or at the same time and listed before; legs without a time come last. */
  lemma {:induction false} EarlierInFields(legs: seq<Leg>, i: nat, j: nat)
    requires i < |legs| && j < |legs| && i != j && Earlier(legs, i, j)
    ensures legs[i].submittedAt.None? ==> legs[j].submittedAt.None? && i < j
    ensures legs[i].submittedAt.Some? && legs[j].submittedAt.Some? ==>
      legs[i].submittedAt.value <= legs[j].submittedAt.value
      && (legs[i].submittedAt == legs[j].submittedAt ==> i < j)
  {
  }
}
