/** The counting loop of partial_day in scripts/momwarn1_derive_a_load.py, the set-based twin of the
    scanner, and summarize_counts. */
module PartialDay {
  import opened Wrappers
  import opened SecondCounts

  /** What was requested and received for one symbol. */
  datatype Receipt = Receipt(symbol: string, from: nat, to: nat, rawCount: nat, complete: bool, exhausted: bool)

  /** A sealed history: one symbol's timestamps and their receipt. */
  datatype History = History(symbol: string, stamps: seq<nat>, complete: bool, receipt: Receipt)

  /** The totals that the sealing run reported. */
  datatype Totals = Totals(symbols: nat, prints: nat)

  const MAX_FILES := 20_000

  /** The receipt is complete and covers the window. */
  predicate Requested(r: Receipt, w: Window) {
    r.complete && r.exhausted && r.from <= w.start && w.end <= r.to + 1
  }

  predicate Spans(r: Receipt, stamp: nat) { r.from <= stamp <= r.to }

  /** Its range holds every timestamp of the window. */
  lemma {:induction false} RequestedInFields(r: Receipt, w: Window)
    requires w.start < w.end
    ensures Requested(r, w) <==>
      r.complete && r.exhausted && forall stamp: nat :: w.start <= stamp < w.end ==> Spans(r, stamp)
  {
    if forall stamp: nat :: w.start <= stamp < w.end ==> Spans(r, stamp) {
      assert Spans(r, w.start) && Spans(r, w.end - 1);
    }
  }

  predicate WithinReceipt(f: History) {
    forall k :: 0 <= k < |f.stamps| ==> f.receipt.from <= f.stamps[k] <= f.receipt.to
  }

  /** The history is the one its receipt speaks of, and every timestamp lies in the receipt. */
  predicate Covered(f: History, w: Window) {
    && Requested(f.receipt, w)
    && f.complete && f.symbol == f.receipt.symbol && |f.stamps| == f.receipt.rawCount
    && WithinReceipt(f)
  }

  predicate Sealed(files: seq<History>, w: Window) {
    && (forall i, j :: 0 <= i < j < |files| ==> files[i].symbol != files[j].symbol)
    && (forall i :: 0 <= i < |files| ==> Covered(files[i], w))
  }

  /** One symbol's timestamps as prints. */
  function PrintsOf(symbol: string, stamps: seq<nat>): (r: seq<Print>)
    ensures |r| == |stamps|
  {
    seq(|stamps|, k requires 0 <= k < |stamps| => Print(symbol, stamps[k]))
  }

  function AllPrints(files: seq<History>): seq<Print> {
    if files == [] then []
    else
      var last := files[|files| - 1];
      AllPrints(files[..|files| - 1]) + PrintsOf(last.symbol, last.stamps)
  }

  // ---------------------------------------------------------------- one file

  /** The seconds in which a symbol's timestamps fall. */
  ghost predicate SecondsOf(seconds: set<nat>, stamps: seq<nat>, w: Window)
    requires Whole(w)
  {
    forall s :: s in seconds <==> Hits(stamps, w, s)
  }

  /** Some timestamp falls in second s of the window. */
  ghost predicate Hits(stamps: seq<nat>, w: Window, s: nat)
    requires Whole(w)
  {
    exists k :: 0 <= k < |stamps| && Inside(w, stamps[k]) && SecondOf(w, stamps[k]) == s
  }

  lemma {:induction false} HitsFront(stamps: seq<nat>, w: Window, s: nat)
    requires Whole(w)
    ensures stamps == [] ==> !Hits(stamps, w, s)
    ensures stamps != [] ==>
      var last := stamps[|stamps| - 1];
      Hits(stamps, w, s) <==> Hits(stamps[..|stamps| - 1], w, s) || (Inside(w, last) && SecondOf(w, last) == s)
  {
    hide SecondOf, Whole, Inside;
    if stamps != [] && Hits(stamps, w, s) {
      var k :| 0 <= k < |stamps| && Inside(w, stamps[k]) && SecondOf(w, stamps[k]) == s;
      assert k < |stamps| - 1 ==> stamps[..|stamps| - 1][k] == stamps[k];
    }
    if stamps != [] && Hits(stamps[..|stamps| - 1], w, s) {
      var front := stamps[..|stamps| - 1];
      var k :| 0 <= k < |front| && Inside(w, front[k]) && SecondOf(w, front[k]) == s;
      assert stamps[k] == front[k];
    }
  }

  method CollectSeconds(f: History, w: Window) returns (ok: bool, seconds: set<nat>)
    requires Whole(w)
    ensures ok <==> WithinReceipt(f)
    ensures ok ==> SecondsOf(seconds, f.stamps, w) && forall s :: s in seconds ==> s < Seconds(w)
  {
    hide SecondOf, Whole, Inside, Seconds, Hits;
    seconds := {};
    forall s: nat ensures !Hits(f.stamps[..0], w, s) { HitsFront(f.stamps[..0], w, s); }
    for k := 0 to |f.stamps|
      invariant forall m :: 0 <= m < k ==> f.receipt.from <= f.stamps[m] <= f.receipt.to
      invariant forall s :: s in seconds ==> s < Seconds(w)
      invariant SecondsOf(seconds, f.stamps[..k], w)
    {
      var stamp := f.stamps[k];
      forall s: nat
        ensures Hits(f.stamps[..k + 1], w, s) <==>
          Hits(f.stamps[..k], w, s) || (Inside(w, stamp) && SecondOf(w, stamp) == s)
      {
        HitsFront(f.stamps[..k + 1], w, s);
        assert f.stamps[..k + 1][..k] == f.stamps[..k];
      }
      if !(f.receipt.from <= stamp <= f.receipt.to) { return false, seconds; }
      if Inside(w, stamp) { seconds := seconds + {SecondOf(w, stamp)}; }
    }
    assert f.stamps[..|f.stamps|] == f.stamps;
    ok := true;
  }

  /** A symbol's prints add it to the seconds where it printed. */
  lemma {:induction false} NamesOfFile(prints: seq<Print>, symbol: string, stamps: seq<nat>, w: Window, s: nat)
    requires Whole(w)
    ensures NamesIn(prints + PrintsOf(symbol, stamps), w, s)
      == NamesIn(prints, w, s) + if Hits(stamps, w, s) then {symbol} else {}
  {
    hide SecondOf, Whole, Inside, Hits, NamesIn;
    if stamps == [] {
      HitsFront(stamps, w, s);
      assert prints + PrintsOf(symbol, stamps) == prints;
    } else {
      var front, last := stamps[..|stamps| - 1], stamps[|stamps| - 1];
      NamesOfFile(prints, symbol, front, w, s);
      NamesAppend(prints + PrintsOf(symbol, front), Print(symbol, last), w, s);
      assert prints + PrintsOf(symbol, stamps) == prints + PrintsOf(symbol, front) + [Print(symbol, last)];
      HitsFront(stamps, w, s);
    }
  }

  lemma {:induction false} UnknownSymbol(files: seq<History>, w: Window, s: nat, symbol: string)
    requires Whole(w) && forall i :: 0 <= i < |files| ==> files[i].symbol != symbol
    ensures symbol !in NamesIn(AllPrints(files), w, s)
  {
    if files != [] {
      var front, last := files[..|files| - 1], files[|files| - 1];
      UnknownSymbol(front, w, s, symbol);
      NamesOfFile(AllPrints(front), last.symbol, last.stamps, w, s);
    }
  }

  /** A new symbol raises the counts of exactly its own seconds by one. */
  lemma {:induction false} CountsOfFile(files: seq<History>, f: History, w: Window, seconds: set<nat>)
    requires Whole(w) && SecondsOf(seconds, f.stamps, w)
    requires forall i :: 0 <= i < |files| ==> files[i].symbol != f.symbol
    ensures forall s :: 0 <= s < Seconds(w) ==>
      Counts(AllPrints(files + [f]), w)[s] == Counts(AllPrints(files), w)[s] + if s in seconds then 1 else 0
  {
    hide NamesIn, SecondOf, Whole, Inside, Seconds, Hits;
    assert (files + [f])[..|files|] == files;
    forall s | 0 <= s < Seconds(w)
      ensures Counts(AllPrints(files + [f]), w)[s] == Counts(AllPrints(files), w)[s] + if s in seconds then 1 else 0
    {
      NamesOfFile(AllPrints(files), f.symbol, f.stamps, w, s);
      UnknownSymbol(files, w, s, f.symbol);
    }
  }

  method BumpSeconds(counts: array<nat>, seconds: set<nat>)
    requires forall s :: s in seconds ==> s < counts.Length
    modifies counts
    ensures forall s :: 0 <= s < counts.Length ==> counts[s] == old(counts[s]) + if s in seconds then 1 else 0
  {
    var rest := seconds;
    while rest != {}
      invariant rest <= seconds
      invariant forall s :: 0 <= s < counts.Length ==>
        counts[s] == old(counts[s]) + if s in seconds && s !in rest then 1 else 0
      decreases rest
    {
      var second :| second in rest;
      counts[second] := counts[second] + 1;
      rest := rest - {second};
    }
  }

  lemma {:induction false} SealedNext(files: seq<History>, i: nat, w: Window)
    requires i < |files| && Sealed(files[..i], w)
    ensures Sealed(files[..i + 1], w) <==>
      Covered(files[i], w) && forall k :: 0 <= k < i ==> files[k].symbol != files[i].symbol
  {
    hide Covered;
    assert files[..i + 1][i] == files[i];
    assert forall k :: 0 <= k < i ==> files[..i + 1][k] == files[k] == files[..i][k];
  }

  lemma {:induction false} SealedPrefix(files: seq<History>, n: nat, w: Window)
    requires n <= |files| && Sealed(files, w)
    ensures Sealed(files[..n], w)
  {
    hide Covered;
  }

  /** Every check of one file, in the order of the script. */
  method CheckFile(f: History, w: Window, symbols: set<string>) returns (ok: bool, seconds: set<nat>)
    requires Whole(w)
    ensures ok <==> f.symbol !in symbols && Covered(f, w)
    ensures ok ==> SecondsOf(seconds, f.stamps, w) && forall s :: s in seconds ==> s < Seconds(w)
  {
    hide SecondsOf, Whole, Seconds, WithinReceipt, Requested;
    ok, seconds := false, {};
    if !Requested(f.receipt, w) { return; }
    if f.symbol in symbols || f.symbol != f.receipt.symbol || !f.complete { return; }
    if |f.stamps| != f.receipt.rawCount { return; }
    ok, seconds := CollectSeconds(f, w);
  }

  /** The counts of a sealed day, or nothing when a file is out of order or the totals are not those of the
      sealing run. */
  method CountDay(files: seq<History>, w: Window, verified: Totals) returns (r: Option<seq<nat>>)
    requires Whole(w)
    ensures r.Some? <==>
      0 < |files| <= MAX_FILES && Sealed(files, w) && verified == Totals(|files|, |AllPrints(files)|)
    ensures r.Some? ==> r.value == Counts(AllPrints(files), w)
  {
    hide Counts, SecondsOf, Whole, Seconds, Covered, AllPrints, Sealed;
    var counts := new nat[Seconds(w)](_ => 0);
    var symbols: set<string> := {};
    var rows := 0;
    if files == [] || |files| > MAX_FILES { return None; }
    NoCounts(w, counts[..]);
    NothingSealed(w);
    assert files[..0] == [];
    for i := 0 to |files|
      invariant fresh(counts) && counts.Length == Seconds(w)
      invariant counts[..] == Counts(AllPrints(files[..i]), w) && rows == |AllPrints(files[..i])|
      invariant Sealed(files[..i], w)
      invariant |symbols| == i && forall n :: n in symbols <==> exists k :: 0 <= k < i && files[k].symbol == n
    {
      var f := files[i];
      var ok, seconds := CheckFile(f, w, symbols);
      SealedNext(files, i, w);
      if !ok {
        if Sealed(files, w) { SealedPrefix(files, i + 1, w); }
        return None;
      }
      symbols, rows := symbols + {f.symbol}, rows + |f.stamps|;
      ghost var was := counts[..];
      BumpSeconds(counts, seconds);
      assert files[..i] + [f] == files[..i + 1];
      PrintsAppend(files[..i], f);
      CountsBumped(files[..i], f, w, seconds, was, counts[..]);
    }
    assert files[..|files|] == files;
    if |symbols| != verified.symbols || rows != verified.prints { return None; }
    r := Some(counts[..]);
  }

  lemma {:induction false} CountsBumped(
      files: seq<History>, f: History, w: Window, seconds: set<nat>, was: seq<nat>, now: seq<nat>)
    requires Whole(w) && SecondsOf(seconds, f.stamps, w)
    requires forall i :: 0 <= i < |files| ==> files[i].symbol != f.symbol
    requires was == Counts(AllPrints(files), w) && |now| == |was|
    requires forall s :: 0 <= s < |was| ==> now[s] == was[s] + if s in seconds then 1 else 0
    ensures now == Counts(AllPrints(files + [f]), w)
  {
    hide Counts, SecondsOf, Whole, Seconds, AllPrints;
    CountsOfFile(files, f, w, seconds);
  }

  lemma {:induction false} PrintsAppend(files: seq<History>, f: History)
    ensures |AllPrints(files + [f])| == |AllPrints(files)| + |f.stamps|
  {
    assert (files + [f])[..|files|] == files;
  }

  lemma {:induction false} NothingSealed(w: Window)
    ensures Sealed([], w)
  {
  }

  lemma {:induction false} NoCounts(w: Window, counts: seq<nat>)
    requires Whole(w) && |counts| == Seconds(w) && forall s :: 0 <= s < |counts| ==> counts[s] == 0
    ensures counts == Counts(AllPrints([]), w) && AllPrints([]) == []
  {
  }

  // ---------------------------------------------------------------- the summary

  datatype Summary = Summary(peak: nat, p999: nat, total: nat)

  function Insert(x: nat, r: seq<nat>): (q: seq<nat>)
    ensures |q| == |r| + 1
  {
    if r == [] || r[|r| - 1] <= x then r + [x] else Insert(x, r[..|r| - 1]) + [r[|r| - 1]]
  }

  function Sorted(counts: seq<nat>): (r: seq<nat>)
    ensures |r| == |counts|
  {
    if counts == [] then [] else Insert(counts[|counts| - 1], Sorted(counts[..|counts| - 1]))
  }

  /** How many of the counts are at most v. */
  function AtMost(counts: seq<nat>, v: int): nat {
    if counts == [] then 0 else AtMost(counts[..|counts| - 1], v) + if counts[|counts| - 1] <= v then 1 else 0
  }

  ghost predicate Ascending(r: seq<nat>) {
    forall i, j :: 0 <= i < j < |r| ==> r[i] <= r[j]
  }

  lemma {:induction false} InsertAtMost(x: nat, r: seq<nat>, v: int)
    ensures AtMost(Insert(x, r), v) == AtMost(r, v) + if x <= v then 1 else 0
  {
    var q := Insert(x, r);
    if r == [] || r[|r| - 1] <= x {
      assert q[..|q| - 1] == r;
    } else {
      InsertAtMost(x, r[..|r| - 1], v);
      assert q[..|q| - 1] == Insert(x, r[..|r| - 1]);
    }
  }

  lemma {:induction false} InsertAscends(x: nat, r: seq<nat>, top: int)
    requires Ascending(r) && x <= top && forall k :: 0 <= k < |r| ==> r[k] <= top
    ensures Ascending(Insert(x, r)) && forall k :: 0 <= k < |r| + 1 ==> Insert(x, r)[k] <= top
  {
    if r != [] && r[|r| - 1] > x { InsertAscends(x, r[..|r| - 1], r[|r| - 1]); }
  }

  lemma {:induction false} SortedMeaning(counts: seq<nat>, v: int, top: int)
    requires forall k :: 0 <= k < |counts| ==> counts[k] <= top
    ensures AtMost(Sorted(counts), v) == AtMost(counts, v)
    ensures Ascending(Sorted(counts)) && forall k :: 0 <= k < |counts| ==> Sorted(counts)[k] <= top
  {
    if counts != [] {
      var front, last := counts[..|counts| - 1], counts[|counts| - 1];
      SortedMeaning(front, v, top);
      InsertAtMost(last, Sorted(front), v);
      InsertAscends(last, Sorted(front), top);
    }
  }

  /** In ascending order, the first k values are exactly those that a smaller bound can hold. */
  lemma {:induction false} RankAtMost(r: seq<nat>, k: nat, v: int)
    requires Ascending(r) && k <= |r|
    ensures (forall i :: 0 <= i < k ==> r[i] <= v) ==> AtMost(r, v) >= k
    ensures (forall i :: k <= i < |r| ==> r[i] > v) ==> AtMost(r, v) <= k
  {
    if k < |r| {
      RankAtMost(r[..|r| - 1], k, v);
    } else if k > 0 {
      RankAtMost(r[..k - 1], k - 1, v);
    }
  }

  /** Nearest rank: the ceiling of 999 thousandths of the seconds. */
  function Rank(n: nat): nat { (999 * n + 999) / 1000 }

  function Summarize(counts: seq<nat>): Option<Summary> {
    if counts == [] then None
    else
      var ordered := Sorted(counts);
      Some(Summary(ordered[|ordered| - 1], ordered[Rank(|counts|) - 1], Sum(counts)))
  }

  lemma {:induction false} AnyTop(counts: seq<nat>) returns (top: int)
    ensures forall k :: 0 <= k < |counts| ==> counts[k] <= top
  {
    top := 0;
    if counts != [] {
      top := AnyTop(counts[..|counts| - 1]);
      if top < counts[|counts| - 1] { top := counts[|counts| - 1]; }
    }
  }

  /** The value at position k of the order: more than k counts reach no higher, at most k stay below. */
  lemma {:induction false} OrderStatistic(counts: seq<nat>, k: nat)
    requires k < |counts|
    ensures var v: int := Sorted(counts)[k];
      AtMost(counts, v) >= k + 1 && AtMost(counts, v - 1) <= k
  {
    hide Sorted, AtMost;
    var ordered := Sorted(counts);
    var v: int := ordered[k];
    var top := AnyTop(counts);
    SortedMeaning(counts, v, top);
    SortedMeaning(counts, v - 1, top);
    RankAtMost(ordered, k + 1, v);
    RankAtMost(ordered, k, v - 1);
  }

  function Upto(counts: seq<nat>, v: int): set<nat> {
    set k: nat | k < |counts| && counts[k] <= v
  }

  lemma {:induction false} AtMostCounts(counts: seq<nat>, v: int)
    ensures AtMost(counts, v) == |Upto(counts, v)|
  {
    if counts == [] {
      assert Upto(counts, v) == {};
    } else {
      var n := |counts| - 1;
      var front := Upto(counts[..n], v);
      AtMostCounts(counts[..n], v);
      if counts[n] <= v {
        assert Upto(counts, v) == front + {n};
      } else {
        assert Upto(counts, v) == front;
      }
    }
  }

  /** At least 999 thousandths of all seconds count no more than the reported percentile, and fewer
      than that count less; nobody counts more than the peak, and somebody counts it. */
  lemma {:induction false} PercentileIsNearestRank(counts: seq<nat>)
    requires counts != []
    ensures var r := Summarize(counts).value;
      && 1000 * |Upto(counts, r.p999)| >= 999 * |counts|
      && 1000 * |Upto(counts, r.p999 - 1)| < 999 * |counts|
      && |Upto(counts, r.peak)| == |counts|
      && |Upto(counts, r.peak - 1)| < |counts|
  {
    hide Sorted, AtMost, Sum, Upto;
    forall v: int ensures AtMost(counts, v) == |Upto(counts, v)| { AtMostCounts(counts, v); }
    OrderStatistic(counts, Rank(|counts|) - 1);
    OrderStatistic(counts, |counts| - 1);
    AtMostAll(counts, Summarize(counts).value.peak);
  }

  lemma {:induction false} AtMostAll(r: seq<nat>, v: int)
    ensures AtMost(r, v) <= |r|
  {
    if r != [] { AtMostAll(r[..|r| - 1], v); }
  }
}
