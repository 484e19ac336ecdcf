/** The bar gap report and repair of scripts/report_bar_gaps.py: holes of at least two minutes between
    consecutive persisted bars, the minutes missing in them, and an insert-only backfill. */
module GapRepair {
  import opened Halts

  datatype Key = Key(symbol: string, at: int)

  datatype Bar = Bar(first: real, high: real, low: real, close: real, volume: int)

  type Rows = map<Key, Bar>

  datatype Gap = Gap(symbol: string, start: int, end: int)

  const MIN_GAP := 2 * MINUTE

  // ---------------------------------------------------------------- finding the gaps

  predicate Present(rows: Rows, symbol: string, at: int, lo: int, hi: int) {
    lo <= at < hi && Key(symbol, at) in rows
  }

  /** Two consecutive bars of the day at least two minutes apart. */
  ghost predicate IsGap(rows: Rows, lo: int, hi: int, g: Gap) {
    && Present(rows, g.symbol, g.start, lo, hi) && Present(rows, g.symbol, g.end, lo, hi)
    && g.end - g.start >= MIN_GAP
    && forall t :: g.start < t < g.end ==> !Present(rows, g.symbol, t, lo, hi)
  }

  ghost predicate Ascending(times: seq<int>) { forall i, j :: 0 <= i < j < |times| ==> times[i] < times[j] }

  method SortTimes(times: set<int>) returns (r: seq<int>)
    ensures Ascending(r) && forall t :: t in r <==> t in times
  {
    r := [];
    var rest := times;
    while rest != {}
      invariant Ascending(r) && rest <= times && forall t :: t in r <==> t in times && t !in rest
      invariant forall a, b :: a in r && b in rest ==> a < b
      decreases rest
    {
      var least := Least(rest);
      forall i | 0 <= i < |r| ensures r[i] < least { assert r[i] in r; }
      r, rest := r + [least], rest - {least};
    }
  }

  method Least(times: set<int>) returns (least: int)
    requires times != {}
    ensures least in times && forall t :: t in times ==> least <= t
  {
    if forall t :: t !in times { assert false; }
    least :| least in times;
    var rest := times - {least};
    while rest != {}
      invariant rest <= times && least in times && forall t :: t in times && t !in rest ==> least <= t
      decreases rest
    {
      if forall t :: t !in rest { assert false; }
      var t :| t in rest;
      if t < least { least := t; }
      rest := rest - {t};
    }
  }

  function TimesOf(rows: Rows, symbol: string, lo: int, hi: int): (times: set<int>)
    ensures forall t :: t in times <==> Present(rows, symbol, t, lo, hi)
  {
    set k | k in rows.Keys && k.symbol == symbol && lo <= k.at < hi :: k.at
  }

  /** s is listed before t. */
  ghost predicate ListedBefore(symbols: seq<string>, s: string, t: string) {
    exists i, j :: 0 <= i < j < |symbols| && symbols[i] == s && symbols[j] == t
  }

  /** By symbol, then by time; no gap twice. */
  ghost predicate Ordered(symbols: seq<string>, gaps: seq<Gap>) {
    forall i, j :: 0 <= i < j < |gaps| ==>
      || ListedBefore(symbols, gaps[i].symbol, gaps[j].symbol)
      || (gaps[i].symbol == gaps[j].symbol && gaps[i].start < gaps[j].start)
  }

  /** lead(bar_time) OVER (PARTITION BY symbol ORDER BY bar_time), the symbols in the order of the query. */
  method FindGaps(rows: Rows, symbols: seq<string>, lo: int, hi: int) returns (gaps: seq<Gap>)
    ensures forall g :: g in gaps <==> g.symbol in symbols && IsGap(rows, lo, hi, g)
    ensures (forall i, j :: 0 <= i < j < |symbols| ==> symbols[i] != symbols[j]) ==> Ordered(symbols, gaps)
    ensures (forall k :: k in rows ==> k.symbol in symbols) ==> FoundGaps(rows, lo, hi, gaps)
  {
    hide IsGap, ListedBefore;
    gaps := [];
    for n := 0 to |symbols|
      invariant forall g :: g in gaps <==> g.symbol in symbols[..n] && IsGap(rows, lo, hi, g)
      invariant Ordered(symbols, gaps)
    {
      var found := GapsOf(rows, symbols[n], lo, hi);
      assert symbols[..n + 1] == symbols[..n] + [symbols[n]];
      OrderedAppend(symbols, n, gaps, found);
      gaps := gaps + found;
    }
    assert symbols[..|symbols|] == symbols;
    forall g | IsGap(rows, lo, hi, g) ensures Key(g.symbol, g.start) in rows { GapIsPresent(rows, lo, hi, g); }
  }

  lemma {:induction false} OrderedAppend(symbols: seq<string>, n: nat, gaps: seq<Gap>, found: seq<Gap>)
    requires n < |symbols| && Ordered(symbols, gaps) && forall g :: g in gaps ==> g.symbol in symbols[..n]
    requires forall i :: 0 <= i < |found| ==> found[i].symbol == symbols[n]
    requires forall i, j :: 0 <= i < j < |found| ==> found[i].start < found[j].start
    ensures Ordered(symbols, gaps + found)
  {
    hide ListedBefore;
    forall i, j | 0 <= i < |gaps| && 0 <= j < |found| ensures ListedBefore(symbols, gaps[i].symbol, found[j].symbol) {
      ListedEarlier(symbols, n, gaps[i].symbol);
    }
  }

  lemma {:induction false} ListedEarlier(symbols: seq<string>, n: nat, s: string)
    requires n < |symbols| && s in symbols[..n]
    ensures ListedBefore(symbols, s, symbols[n])
  {
    var i :| 0 <= i < n && symbols[..n][i] == s;
    assert symbols[i] == s;
  }

  lemma {:induction false} GapIsPresent(rows: Rows, lo: int, hi: int, g: Gap)
    requires IsGap(rows, lo, hi, g)
    ensures Key(g.symbol, g.start) in rows
  {
  }

  method GapsOf(rows: Rows, symbol: string, lo: int, hi: int) returns (gaps: seq<Gap>)
    ensures forall g :: g in gaps <==> g.symbol == symbol && IsGap(rows, lo, hi, g)
    ensures forall i :: 0 <= i < |gaps| ==> gaps[i].symbol == symbol
    ensures forall i, j :: 0 <= i < j < |gaps| ==> gaps[i].start < gaps[j].start
  {
    hide IsGap, TimesOf;
    var times := SortTimes(TimesOf(rows, symbol, lo, hi));
    gaps := [];
    var i := 0;
    while i < |times| - 1
      invariant 0 <= i <= |times|
      invariant forall g :: g in gaps <==> exists k :: 0 <= k < i && k < |times| - 1 && GapAt(times, k, symbol, g)
      invariant forall j :: 0 <= j < |gaps| ==> gaps[j].symbol == symbol && i > 0 && gaps[j].start <= times[i - 1]
      invariant forall j, k :: 0 <= j < k < |gaps| ==> gaps[j].start < gaps[k].start
      decreases |times| - i
    {
      assert i > 0 ==> times[i - 1] < times[i];
      if times[i + 1] - times[i] >= MIN_GAP {
        assert GapAt(times, i, symbol, Gap(symbol, times[i], times[i + 1]));
        gaps := gaps + [Gap(symbol, times[i], times[i + 1])];
      }
      i := i + 1;
    }
    forall g ensures g in gaps <==> g.symbol == symbol && IsGap(rows, lo, hi, g) {
      GapsAreConsecutive(rows, symbol, lo, hi, times, g);
    }
  }

  ghost predicate GapAt(times: seq<int>, k: int, symbol: string, g: Gap) {
    0 <= k < |times| - 1 && times[k + 1] - times[k] >= MIN_GAP && g == Gap(symbol, times[k], times[k + 1])
  }

  lemma {:induction false} GapsAreConsecutive(rows: Rows, symbol: string, lo: int, hi: int, times: seq<int>, g: Gap)
    requires Ascending(times) && forall t :: t in times <==> Present(rows, symbol, t, lo, hi)
    ensures g.symbol == symbol && IsGap(rows, lo, hi, g) <==>
      exists k :: 0 <= k < |times| - 1 && GapAt(times, k, symbol, g)
  {
    hide Present;
    if g.symbol == symbol && IsGap(rows, lo, hi, g) {
      assert g.start in times && g.end in times;
      var k :| 0 <= k < |times| && times[k] == g.start;
      var m :| 0 <= m < |times| && times[m] == g.end;
      assert k < m;
      assert times[k + 1] in times;
      assert GapAt(times, k, symbol, g);
    }
    if k :| 0 <= k < |times| - 1 && GapAt(times, k, symbol, g) {
      assert times[k] in times && times[k + 1] in times;
      forall m | 0 <= m < |times| ensures times[m] <= g.start || times[m] >= g.end {}
    }
  }

  // ---------------------------------------------------------------- the missing minutes

  method MissingMinutes(start: int, end: int) returns (out: seq<int>)
    ensures Ascending(out) && forall t :: t in out <==> t in Missing(start, end)
  {
    out := [];
    var t := start + MINUTE;
    while t < end
      invariant t > start && OnGrid(start, t)
      invariant Ascending(out) && forall u :: u in out <==> start < u < t && u < end && OnGrid(start, u)
      decreases end - t
    {
      forall i | 0 <= i < |out| ensures out[i] < t { assert out[i] in out; }
      out := out + [t];
      t := t + MINUTE;
    }
  }

  predicate OnGrid(start: int, t: int) { (t - start) % MINUTE == 0 }

  /** Whole minutes after start and before end. */
  function Missing(start: int, end: int): set<int> {
    set t | start < t < end && OnGrid(start, t)
  }

  /** A minute without a bar, with a bar before and a bar after it. */
  ghost predicate Absent(rows: Rows, symbol: string, t: int, lo: int, hi: int) {
    && t % MINUTE == 0 && !Present(rows, symbol, t, lo, hi)
    && (exists a :: a < t && Present(rows, symbol, a, lo, hi))
    && (exists b :: t < b && Present(rows, symbol, b, lo, hi))
  }

  /** t is a missing minute of some gap of the symbol. */
  ghost predicate Reported(rows: Rows, symbol: string, t: int, lo: int, hi: int) {
    exists g: Gap :: g.symbol == symbol && IsGap(rows, lo, hi, g) && t in Missing(g.start, g.end)
  }

  /** Two bars of the day with none between them. */
  ghost predicate Neighbours(rows: Rows, symbol: string, a: int, b: int, lo: int, hi: int) {
    && a < b && Present(rows, symbol, a, lo, hi) && Present(rows, symbol, b, lo, hi)
    && forall t :: a < t < b ==> !Present(rows, symbol, t, lo, hi)
  }

  function NextMinute(a: int): int { a - a % MINUTE + MINUTE }

  /** Wherever neighbouring bars have a whole minute between them, the first is on the minute and the second at
      least two minutes later. */
  ghost predicate Regular(rows: Rows, symbol: string, lo: int, hi: int) {
    forall a, b :: Neighbours(rows, symbol, a, b, lo, hi) && NextMinute(a) < b ==> a % MINUTE == 0 && b - a >= MIN_GAP
  }

  lemma {:induction false} SameMinutes(a: int, t: int)
    requires a % MINUTE == 0
    ensures OnGrid(a, t) <==> t % MINUTE == 0
  {
  }

  lemma {:induction false} OneGrid(a: int, s: int, t: int)
    requires OnGrid(a, s)
    ensures OnGrid(s, t) <==> OnGrid(a, t)
  {
  }

  lemma {:induction false} NextMinuteIsWhole(a: int)
    ensures a < NextMinute(a) <= a + MINUTE && NextMinute(a) % MINUTE == 0
    ensures forall t :: a < t && t % MINUTE == 0 ==> NextMinute(a) <= t
  {
  }

  lemma {:induction false} LastBefore(rows: Rows, symbol: string, a: int, t: int, lo: int, hi: int) returns (r: int)
    requires a < t && Present(rows, symbol, a, lo, hi)
    ensures a <= r < t && Present(rows, symbol, r, lo, hi)
    ensures forall u :: r < u < t ==> !Present(rows, symbol, u, lo, hi)
    decreases t - a
  {
    r := a;
    if u :| a < u < t && Present(rows, symbol, u, lo, hi) { r := LastBefore(rows, symbol, u, t, lo, hi); }
  }

  lemma {:induction false} FirstAfter(rows: Rows, symbol: string, t: int, b: int, lo: int, hi: int) returns (r: int)
    requires t < b && Present(rows, symbol, b, lo, hi)
    ensures t < r <= b && Present(rows, symbol, r, lo, hi)
    ensures forall u :: t < u < r ==> !Present(rows, symbol, u, lo, hi)
    decreases b - t
  {
    r := b;
    if u :| t < u < b && Present(rows, symbol, u, lo, hi) { r := FirstAfter(rows, symbol, t, u, lo, hi); }
  }

  /** The gap around a reported minute is the one between its neighbours. */
  lemma {:induction false} ReportedBetween(rows: Rows, symbol: string, a: int, b: int, t: int, lo: int, hi: int)
    requires Neighbours(rows, symbol, a, b, lo, hi) && a < t < b
    ensures Reported(rows, symbol, t, lo, hi) <==> b - a >= MIN_GAP && OnGrid(a, t)
  {
    hide Present, OnGrid;
    if g: Gap :| g.symbol == symbol && IsGap(rows, lo, hi, g) && t in Missing(g.start, g.end) {
      assert g.start == a && g.end == b;
    }
    if b - a >= MIN_GAP && OnGrid(a, t) { assert IsGap(rows, lo, hi, Gap(symbol, a, b)); }
  }

  /** A whole minute between two neighbouring bars is reported exactly when the first bar is on the minute and
      the second at least two minutes later. */
  lemma {:induction false} MinuteIsReported(rows: Rows, symbol: string, a: int, b: int, t: int, lo: int, hi: int)
    requires Neighbours(rows, symbol, a, b, lo, hi) && a < t < b && t % MINUTE == 0
    ensures Reported(rows, symbol, t, lo, hi) <==> a % MINUTE == 0 && b - a >= MIN_GAP
  {
    hide Reported, Neighbours, OnGrid;
    ReportedBetween(rows, symbol, a, b, t, lo, hi);
    WholeOnGrid(a, t);
  }

  lemma {:induction false} WholeOnGrid(a: int, t: int)
    requires t % MINUTE == 0
    ensures OnGrid(a, t) <==> a % MINUTE == 0
  {
  }

  lemma {:induction false} NeighboursAround(rows: Rows, symbol: string, t: int, lo: int, hi: int)
    returns (a: int, b: int)
    requires Absent(rows, symbol, t, lo, hi)
    ensures Neighbours(rows, symbol, a, b, lo, hi) && a < t < b
  {
    hide Present;
    var before :| before < t && Present(rows, symbol, before, lo, hi);
    var after :| t < after && Present(rows, symbol, after, lo, hi);
    a := LastBefore(rows, symbol, before, t, lo, hi);
    b := FirstAfter(rows, symbol, t, after, lo, hi);
  }

  lemma {:induction false} GapAround(rows: Rows, symbol: string, t: int, lo: int, hi: int) returns (a: int, b: int)
    requires Reported(rows, symbol, t, lo, hi)
    ensures Neighbours(rows, symbol, a, b, lo, hi) && a < t < b && b - a >= MIN_GAP && OnGrid(a, t)
  {
    hide Present, OnGrid;
    var g: Gap :| g.symbol == symbol && IsGap(rows, lo, hi, g) && t in Missing(g.start, g.end);
    a, b := g.start, g.end;
  }

  lemma {:induction false} BetweenIsAbsent(rows: Rows, symbol: string, a: int, b: int, t: int, lo: int, hi: int)
    requires Neighbours(rows, symbol, a, b, lo, hi) && a < t < b
    ensures Absent(rows, symbol, t, lo, hi) <==> t % MINUTE == 0
  {
    hide Present;
  }

  /** The reported minutes of a symbol are exactly its absent ones, if and only if its bars are regular. */
  lemma {:induction false} MissingIsAbsent(rows: Rows, symbol: string, lo: int, hi: int)
    ensures (forall t :: Reported(rows, symbol, t, lo, hi) <==> Absent(rows, symbol, t, lo, hi))
      <==> Regular(rows, symbol, lo, hi)
  {
    hide Reported, Absent, Neighbours, NextMinute, OnGrid;
    if Regular(rows, symbol, lo, hi) {
      forall t ensures Reported(rows, symbol, t, lo, hi) <==> Absent(rows, symbol, t, lo, hi) {
        RegularMinute(rows, symbol, t, lo, hi);
      }
    }
    if forall t :: Reported(rows, symbol, t, lo, hi) <==> Absent(rows, symbol, t, lo, hi) {
      forall a, b | Neighbours(rows, symbol, a, b, lo, hi) && NextMinute(a) < b
        ensures a % MINUTE == 0 && b - a >= MIN_GAP
      {
        NextMinuteIsWhole(a);
        BetweenIsAbsent(rows, symbol, a, b, NextMinute(a), lo, hi);
        MinuteIsReported(rows, symbol, a, b, NextMinute(a), lo, hi);
      }
    }
  }

  lemma {:induction false} RegularMinute(rows: Rows, symbol: string, t: int, lo: int, hi: int)
    requires Regular(rows, symbol, lo, hi)
    ensures Reported(rows, symbol, t, lo, hi) <==> Absent(rows, symbol, t, lo, hi)
  {
    hide Reported, Absent, Neighbours, NextMinute, OnGrid;
    if Absent(rows, symbol, t, lo, hi) {
      var a, b := NeighboursAround(rows, symbol, t, lo, hi);
      BetweenIsAbsent(rows, symbol, a, b, t, lo, hi);
      NextMinuteIsWhole(a);
      MinuteIsReported(rows, symbol, a, b, t, lo, hi);
    }
    if Reported(rows, symbol, t, lo, hi) {
      var a, b := GapAround(rows, symbol, t, lo, hi);
      NextMinuteIsWhole(a);
      SameMinutes(a, t);
      BetweenIsAbsent(rows, symbol, a, b, t, lo, hi);
    }
  }

  /** Bars on the minute are regular. */
  lemma {:induction false} AlignedIsRegular(rows: Rows, symbol: string, lo: int, hi: int)
    requires forall k :: k in rows && lo <= k.at < hi ==> k.at % MINUTE == 0
    ensures Regular(rows, symbol, lo, hi)
  {
    forall a, b | Neighbours(rows, symbol, a, b, lo, hi) && NextMinute(a) < b ensures b - a >= MIN_GAP {
      MinutesApart(a, b);
    }
  }

  lemma {:induction false} MinutesApart(a: int, b: int)
    requires a % MINUTE == 0 && b % MINUTE == 0 && NextMinute(a) < b
    ensures b - a >= MIN_GAP
  {
  }

  /** The missing minutes of two gaps are disjoint. */
  lemma {:induction false} GapsAreDisjoint(rows: Rows, lo: int, hi: int, g: Gap, h: Gap)
    requires IsGap(rows, lo, hi, g) && IsGap(rows, lo, hi, h) && g != h && g.symbol == h.symbol
    ensures Missing(g.start, g.end) !! Missing(h.start, h.end)
  {
    forall t | t in Missing(g.start, g.end) ensures t !in Missing(h.start, h.end) {
    }
  }

  /** Off the minute the promise fails: bars at 0 s and 90 s leave minute 1 absent and unreported. */
  lemma {:induction false} UnalignedBarsHideAMinute()
    ensures var bar := Bar(1.0, 1.0, 1.0, 1.0, 1);
      var rows := map[Key("A", 0) := bar, Key("A", 90 * SECOND) := bar];
      Absent(rows, "A", MINUTE, 0, 2 * MINUTE) && !Reported(rows, "A", MINUTE, 0, 2 * MINUTE)
  {
    var bar := Bar(1.0, 1.0, 1.0, 1.0, 1);
    var rows := map[Key("A", 0) := bar, Key("A", 90 * SECOND) := bar];
    assert Neighbours(rows, "A", 0, 90 * SECOND, 0, 2 * MINUTE);
    MinuteIsReported(rows, "A", 0, 90 * SECOND, MINUTE, 0, 2 * MINUTE);
  }

  // ---------------------------------------------------------------- the repair

  /** What the REST source returned per symbol; a symbol whose fetch failed has no entry. */
  type Source = map<string, map<int, Bar>>

  predicate Supplies(source: Source, k: Key) { k.symbol in source && k.at in source[k.symbol] }

  /** Existing rows as they were, plus the tried keys that the source supplies. */
  ghost predicate Repaired(before: Rows, after: Rows, tried: set<Key>, source: Source) {
    forall k: Key ::
      && (k in after <==> k in before || (k in tried && Supplies(source, k)))
      && (k in after ==> after[k] == if k in before then before[k] else source[k.symbol][k.at])
  }

  class BarTable {
    var rows: Rows

    constructor (r: Rows)
      ensures rows == r
    {
      rows := r;
    }

    /** INSERT ... ON CONFLICT DO NOTHING. */
    method Insert(k: Key, bar: Bar) returns (count: nat)
      modifies this
      ensures rows == if k in old(rows) then old(rows) else old(rows)[k := bar]
      ensures |rows| == |old(rows)| + count
    {
      if k in rows { return 0; }
      rows := rows[k := bar];
      count := 1;
    }
  }

  function Wanted(gaps: seq<Gap>, symbol: string): (minutes: set<int>)
    ensures forall t :: t in minutes <==> exists g :: g in gaps && g.symbol == symbol && t in Missing(g.start, g.end)
  {
    if gaps == [] then {}
    else
      var g := gaps[|gaps| - 1];
      assert gaps == gaps[..|gaps| - 1] + [g];
      Wanted(gaps[..|gaps| - 1], symbol) + if g.symbol == symbol then Missing(g.start, g.end) else {}
  }

  function WantedKeys(gaps: seq<Gap>): (keys: set<Key>)
    ensures forall k :: k in keys <==> k.at in Wanted(gaps, k.symbol)
  {
    var symbols := set g | g in gaps :: g.symbol;
    assert forall k: Key :: k.at in Wanted(gaps, k.symbol) ==> k.symbol in symbols;
    set s, t | s in symbols && t in Wanted(gaps, s) :: Key(s, t)
  }

  /** The missing minutes of all gaps, collected per symbol. */
  method CollectWanted(gaps: seq<Gap>) returns (wanted: map<string, set<int>>)
    ensures forall s :: (if s in wanted then wanted[s] else {}) == Wanted(gaps, s)
  {
    hide Missing;
    wanted := map[];
    for n := 0 to |gaps|
      invariant forall s :: (if s in wanted then wanted[s] else {}) == Wanted(gaps[..n], s)
    {
      var g := gaps[n];
      assert gaps[..n + 1][..n] == gaps[..n];
      var minutes := MissingMinutes(g.start, g.end);
      var minuteSet := set t | t in minutes;
      assert minuteSet == Missing(g.start, g.end);
      wanted := wanted[g.symbol := (if g.symbol in wanted then wanted[g.symbol] else {}) + minuteSet];
    }
    assert gaps[..|gaps|] == gaps;
  }

  function KeysOf(symbol: string, minutes: set<int>): set<Key> { set t | t in minutes :: Key(symbol, t) }

  lemma {:induction false} RepairedTogether(
      before: Rows, was: Rows, now: Rows, first: set<Key>, second: set<Key>, source: Source)
    requires Repaired(before, was, first, source) && Repaired(was, now, second, source)
    ensures Repaired(before, now, first + second, source)
  {
  }

  /** The minutes of one symbol, in any order: the outcome does not depend on it. */
  method FillSymbol(table: BarTable, symbol: string, minutes: set<int>, source: Source) returns (hit: nat)
    requires symbol in source
    modifies table
    ensures Repaired(old(table.rows), table.rows, KeysOf(symbol, minutes), source)
    ensures |table.rows| == |old(table.rows)| + hit
  {
    ghost var before := table.rows;
    hit := 0;
    var rest := minutes;
    while rest != {}
      invariant rest <= minutes
      invariant Repaired(before, table.rows, KeysOf(symbol, minutes - rest), source)
      invariant |table.rows| == |before| + hit
      decreases rest
    {
      if forall t :: t !in rest { assert false; }
      var t :| t in rest;
      ghost var was := table.rows;
      if t in source[symbol] {
        var count := table.Insert(Key(symbol, t), source[symbol][t]);
        hit := hit + count;
      }
      RepairedTogether(before, was, table.rows, KeysOf(symbol, minutes - rest), {Key(symbol, t)}, source);
      assert KeysOf(symbol, minutes - (rest - {t})) == KeysOf(symbol, minutes - rest) + {Key(symbol, t)};
      rest := rest - {t};
    }
    assert minutes - {} == minutes;
  }

  ghost function KeysOver(wanted: map<string, set<int>>, symbols: set<string>): set<Key>
    requires symbols <= wanted.Keys
  {
    set s, t | s in symbols && t in wanted[s] :: Key(s, t)
  }

  /** Symbol by symbol, in any order; a symbol whose fetch failed keeps its holes. */
  method FillGaps(table: BarTable, gaps: seq<Gap>, source: Source) returns (inserted: nat)
    modifies table
    ensures Repaired(old(table.rows), table.rows, WantedKeys(gaps), source)
    ensures |table.rows| == |old(table.rows)| + inserted
  {
    hide Missing, Wanted, Repaired;
    ghost var before := table.rows;
    var wanted := CollectWanted(gaps);
    inserted := 0;
    var pending := wanted.Keys;
    ghost var done: set<string> := {};
    NothingTried(before, KeysOver(wanted, done), source);
    while pending != {}
      invariant pending <= wanted.Keys && done == wanted.Keys - pending
      invariant Repaired(before, table.rows, KeysOver(wanted, done), source)
      invariant |table.rows| == |before| + inserted
      decreases pending
    {
      var symbol :| symbol in pending;
      ghost var was := table.rows;
      if symbol in source {
        var hit := FillSymbol(table, symbol, wanted[symbol], source);
        inserted := inserted + hit;
      } else {
        NothingSupplied(was, symbol, wanted[symbol], source);
      }
      RepairedTogether(before, was, table.rows, KeysOver(wanted, done), KeysOf(symbol, wanted[symbol]), source);
      assert KeysOver(wanted, done + {symbol}) == KeysOver(wanted, done) + KeysOf(symbol, wanted[symbol]);
      pending, done := pending - {symbol}, done + {symbol};
    }
    assert KeysOver(wanted, done) == WantedKeys(gaps);
  }

  lemma {:induction false} NothingTried(rows: Rows, none: set<Key>, source: Source)
    requires none == {}
    ensures Repaired(rows, rows, none, source)
  {
  }

  lemma {:induction false} NothingSupplied(rows: Rows, symbol: string, minutes: set<int>, source: Source)
    requires symbol !in source
    ensures Repaired(rows, rows, KeysOf(symbol, minutes), source)
  {
  }

  // ---------------------------------------------------------------- what a repair leaves

  /** A repair of the gaps found over all symbols of the table. */
  ghost predicate FoundGaps(rows: Rows, lo: int, hi: int, gaps: seq<Gap>) {
    forall g :: g in gaps <==> IsGap(rows, lo, hi, g)
  }

  lemma {:induction false} WantedIsReported(rows: Rows, lo: int, hi: int, gaps: seq<Gap>, k: Key)
    requires FoundGaps(rows, lo, hi, gaps)
    ensures k in WantedKeys(gaps) <==> Reported(rows, k.symbol, k.at, lo, hi)
  {
    hide IsGap, Missing, Wanted;
  }

  /** The repair adds exactly the absent minutes that the source supplies and touches nothing else. */
  lemma {:induction false} RepairAddsTheAbsent(
      before: Rows, after: Rows, gaps: seq<Gap>, source: Source, lo: int, hi: int, k: Key)
    requires Regular(before, k.symbol, lo, hi) && FoundGaps(before, lo, hi, gaps)
    requires Repaired(before, after, WantedKeys(gaps), source)
    ensures k in before ==> k in after && after[k] == before[k]
    ensures k in after && k !in before <==>
      Absent(before, k.symbol, k.at, lo, hi) && Supplies(source, k) && k !in before
    ensures k in after && k !in before ==> after[k] == source[k.symbol][k.at]
  {
    hide Regular, FoundGaps, Absent, Reported, WantedKeys;
    WantedIsReported(before, lo, hi, gaps, k);
    RegularMinute(before, k.symbol, k.at, lo, hi);
  }

  /** What is reported after a repair was reported before it: a gap left in a gap stays on its grid. */
  lemma {:induction false} StillReported(
      before: Rows, after: Rows, gaps: seq<Gap>, source: Source, lo: int, hi: int, symbol: string, t: int)
    requires FoundGaps(before, lo, hi, gaps) && Repaired(before, after, WantedKeys(gaps), source)
    requires Reported(after, symbol, t, lo, hi)
    ensures Reported(before, symbol, t, lo, hi)
  {
    hide FoundGaps, WantedKeys, Reported, Repaired, OnGrid, Present;
    var start, end := GapAround(after, symbol, t, lo, hi);
    OriginOf(before, after, gaps, source, lo, hi, symbol, start);
    OriginOf(before, after, gaps, source, lo, hi, symbol, end);
    BarsKept(before, after, gaps, source, lo, hi, symbol);
    if Present(before, symbol, start, lo, hi) {
      if Present(before, symbol, end, lo, hi) {
        assert Neighbours(before, symbol, start, end, lo, hi);
        ReportedBetween(before, symbol, start, end, t, lo, hi);
      } else {
        var a, b := GapAround(before, symbol, end, lo, hi);
        assert a == start;
        ReportedBetween(before, symbol, a, b, t, lo, hi);
      }
    } else {
      var a, b := GapAround(before, symbol, start, lo, hi);
      assert end <= b;
      OneGrid(a, start, t);
      ReportedBetween(before, symbol, a, b, t, lo, hi);
    }
  }

  /** A bar of the repaired table was there before or was reported missing. */
  lemma {:induction false} OriginOf(
      before: Rows, after: Rows, gaps: seq<Gap>, source: Source, lo: int, hi: int, symbol: string, at: int)
    requires FoundGaps(before, lo, hi, gaps) && Repaired(before, after, WantedKeys(gaps), source)
    requires Present(after, symbol, at, lo, hi)
    ensures Present(before, symbol, at, lo, hi) || Reported(before, symbol, at, lo, hi)
  {
    hide FoundGaps, WantedKeys, Reported;
    WantedIsReported(before, lo, hi, gaps, Key(symbol, at));
  }

  lemma {:induction false} BarsKept(
      before: Rows, after: Rows, gaps: seq<Gap>, source: Source, lo: int, hi: int, symbol: string)
    requires Repaired(before, after, WantedKeys(gaps), source)
    ensures forall at :: Present(before, symbol, at, lo, hi) ==> Present(after, symbol, at, lo, hi)
  {
    hide WantedKeys;
  }

  /** A second repair from the same source changes nothing, on the minute or off it. */
  lemma {:induction false} SecondRepairAddsNothing(
      before: Rows, after: Rows, again: Rows, gaps: seq<Gap>, more: seq<Gap>, source: Source, lo: int, hi: int)
    requires FoundGaps(before, lo, hi, gaps) && FoundGaps(after, lo, hi, more)
    requires Repaired(before, after, WantedKeys(gaps), source) && Repaired(after, again, WantedKeys(more), source)
    ensures again == after
  {
    hide FoundGaps, WantedKeys, Repaired;
    forall k ensures k in again <==> k in after {
      NothingMore(before, after, again, gaps, more, source, lo, hi, k);
    }
    forall k | k in after ensures k in again && again[k] == after[k] {
      NothingMore(before, after, again, gaps, more, source, lo, hi, k);
    }
  }

  lemma {:induction false} NothingMore(
      before: Rows, after: Rows, again: Rows, gaps: seq<Gap>, more: seq<Gap>, source: Source, lo: int, hi: int, k: Key)
    requires FoundGaps(before, lo, hi, gaps) && FoundGaps(after, lo, hi, more)
    requires Repaired(before, after, WantedKeys(gaps), source) && Repaired(after, again, WantedKeys(more), source)
    ensures k in again <==> k in after
    ensures k in after ==> k in again && again[k] == after[k]
  {
    hide FoundGaps, WantedKeys, Reported;
    WantedIsReported(after, lo, hi, more, k);
    WantedIsReported(before, lo, hi, gaps, k);
    if k in WantedKeys(more) { StillReported(before, after, gaps, source, lo, hi, k.symbol, k.at); }
  }

  // ---------------------------------------------------------------- in rows and times

  predicate HasBar(rows: Rows, symbol: string, at: int) { Key(symbol, at) in rows }

  /** A gap lies between two bars of the symbol in the day, 120 seconds or more apart and with no bar between them. */
  lemma {:induction false} GapInFields(rows: Rows, lo: int, hi: int, g: Gap)
    ensures IsGap(rows, lo, hi, g) <==>
      && lo <= g.start && g.end < hi && g.start + 120_000_000 <= g.end
      && HasBar(rows, g.symbol, g.start) && HasBar(rows, g.symbol, g.end)
      && forall t :: g.start < t < g.end ==> !HasBar(rows, g.symbol, t)
  {
    forall t ensures Present(rows, g.symbol, t, lo, hi) <==> lo <= t < hi && HasBar(rows, g.symbol, t) {}
  }

  /** Its missing minutes are the times k minutes after its start, before its end. */
  lemma {:induction false} MissingInFields(start: int, end: int, t: int)
    ensures t in Missing(start, end) <==> start < t < end && exists k :: t == start + k * 60_000_000
  {
    assert t - start == (t - start) / 60_000_000 * 60_000_000 + (t - start) % 60_000_000;
    if t in Missing(start, end) {
      assert t == start + (t - start) / 60_000_000 * 60_000_000;
    }
    if k :| t == start + k * 60_000_000 {
      assert (t - start) % 60_000_000 == (k * 60_000_000) % 60_000_000 == 0;
    }
  }
}
